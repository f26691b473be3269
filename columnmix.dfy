/**
 * MixColumns and InvMixColumns on bytes (FIPS 197, sections 5.1.3 and
 * 5.3.3), and the proof that the bitsliced circuits compute them.
 *
 * Each column of the state is multiplied by a fixed polynomial over GF(2^8):
 * a(x) = {03}x^3 + {01}x^2 + {01}x + {02} for MixColumns and
 * a^-1(x) = {0b}x^3 + {0d}x^2 + {09}x + {0e} for InvMixColumns.  In the
 * bitsliced state column c is lanes c, c + 4, c + 8 and c + 12 of every
 * slice, and rotating a slice by 4 moves each row of a column up by one, so
 * the circuit never mixes bits of different columns.  Reading one column out
 * of every slice turns the circuit into the same circuit on 4-bit slices,
 * where the equality with the byte-level definition is a small bit-vector
 * fact.
 */
module ColumnMixing {
  import opened Bitslice
  import opened Packing
  import opened MixColumnsLayer
  import opened KeyExpansion
  import opened KeySetup

  // ---------------------------------------------------------------- bytes

  /** {03} • b, as ({02} + {01}) • b (FIPS 197, 4.2.1). */
  function Times3(b: bv8): bv8
  {
    XTime(b) ^ b
  }

  /** {09} • b = ({08} + {01}) • b. */
  function Times9(b: bv8): bv8
  {
    XTime(XTime(XTime(b))) ^ b
  }

  /** {0b} • b = ({08} + {02} + {01}) • b. */
  function Times11(b: bv8): bv8
  {
    XTime(XTime(XTime(b))) ^ XTime(b) ^ b
  }

  /** {0d} • b = ({08} + {04} + {01}) • b. */
  function Times13(b: bv8): bv8
  {
    XTime(XTime(XTime(b))) ^ XTime(XTime(b)) ^ b
  }

  /** {0e} • b = ({08} + {04} + {02}) • b. */
  function Times14(b: bv8): bv8
  {
    XTime(XTime(XTime(b))) ^ XTime(XTime(b)) ^ XTime(b)
  }

  /** Row r of a(x) times a column whose rows r, r + 1, r + 2, r + 3 (mod 4) hold b0, b1, b2, b3. */
  function MixByte(b0: bv8, b1: bv8, b2: bv8, b3: bv8): bv8
  {
    XTime(b0) ^ Times3(b1) ^ b2 ^ b3
  }

  /** Row r of a^-1(x) times a column whose rows r, r + 1, r + 2, r + 3 (mod 4) hold b0, b1, b2, b3. */
  function InvMixByte(b0: bv8, b1: bv8, b2: bv8, b3: bv8): bv8
  {
    Times14(b0) ^ Times11(b1) ^ Times13(b2) ^ Times9(b3)
  }

  /** One column times a(x): the four equations of FIPS 197, (5.6). */
  function MixColumnWord(w: seq<bv8>): (m: seq<bv8>)
    requires |w| == 4
    ensures |m| == 4
  {
    [MixByte(w[0], w[1], w[2], w[3]), MixByte(w[1], w[2], w[3], w[0]),
     MixByte(w[2], w[3], w[0], w[1]), MixByte(w[3], w[0], w[1], w[2])]
  }

  /** One column times a^-1(x): the four equations of FIPS 197, (5.10). */
  function InvMixColumnWord(w: seq<bv8>): (m: seq<bv8>)
    requires |w| == 4
    ensures |m| == 4
  {
    [InvMixByte(w[0], w[1], w[2], w[3]), InvMixByte(w[1], w[2], w[3], w[0]),
     InvMixByte(w[2], w[3], w[0], w[1]), InvMixByte(w[3], w[0], w[1], w[2])]
  }

  /** MixColumns on a block: bytes 4c .. 4c + 3 are column c, and each column is transformed on its own. */
  function MixColumnBytes(b: seq<bv8>): (m: seq<bv8>)
    requires |b| == 16
    ensures |m| == 16
  {
    MixColumnWord(b[0..4]) + MixColumnWord(b[4..8]) + MixColumnWord(b[8..12]) + MixColumnWord(b[12..16])
  }

  /** InvMixColumns on a block, column by column. */
  function InvMixColumnBytes(b: seq<bv8>): (m: seq<bv8>)
    requires |b| == 16
    ensures |m| == 16
  {
    InvMixColumnWord(b[0..4]) + InvMixColumnWord(b[4..8]) + InvMixColumnWord(b[8..12]) + InvMixColumnWord(b[12..16])
  }

  // ---------------------------------------------------------------- one column of the slices

  /** The four bits a slice holds for one column, one per row. */
  datatype Quad = Quad(r0: bv1, r1: bv1, r2: bv1, r3: bv1)

  /** Column c of a slice: row r is lane 4r + c. */
  function Column(x: bv16, c: Lane): Quad
    requires c < 4
  {
    Quad(Bit(x, c), Bit(x, c + 4), Bit(x, c + 8), Bit(x, c + 12))
  }

  function ColumnOf(c: Lane): bv16 -> Quad
    requires c < 4
  {
    (x: bv16) => Column(x, c)
  }

  function QuadXor(v: Quad, w: Quad): Quad
  {
    Quad(BitXorOf(v.r0, w.r0), BitXorOf(v.r1, w.r1), BitXorOf(v.r2, w.r2), BitXorOf(v.r3, w.r3))
  }

  /** What a rotation by 4 lanes does to a column: row r + 1 moves up to row r. */
  function Up1(v: Quad): Quad
  {
    Quad(v.r1, v.r2, v.r3, v.r0)
  }

  /** What a rotation by 8 lanes does to a column: row r + 2 moves up to row r. */
  function Up2(v: Quad): Quad
  {
    Quad(v.r2, v.r3, v.r0, v.r1)
  }

  /** The slice operations of MixColumns, seen on one column. */
  const ColOps: LinOps<Quad> := LinOps(QuadXor, Up1, Up2)

  lemma BitRot4(x: bv16, p: Lane)
    ensures Bit((x >> 4) | (x << 12), p) == Bit(x, p + 4)
  {
  }

  lemma BitRot8(x: bv16, p: Lane)
    ensures Bit((x >> 8) | (x << 8), p) == Bit(x, p + 8)
  {
  }

  lemma ColumnXorBits(c: Lane, x: bv16, y: bv16)
    requires c < 4
    ensures Column(x ^ y, c) == QuadXor(Column(x, c), Column(y, c))
  {
    BitXor(c, x, y);
    BitXor(c + 4, x, y);
    BitXor(c + 8, x, y);
    BitXor(c + 12, x, y);
  }

  lemma XorBeta(x: bv16, y: bv16, v: Quad, w: Quad)
    ensures RotOps.xor(x, y) == x ^ y
    ensures ColOps.xor(v, w) == QuadXor(v, w)
  {
  }

  lemma ColumnXor(c: Lane, x: bv16, y: bv16)
    requires c < 4
    ensures ColumnOf(c)(RotOps.xor(x, y)) == ColOps.xor(ColumnOf(c)(x), ColumnOf(c)(y))
  {
    XorBeta(x, y, Column(x, c), Column(y, c));
    ColumnXorBits(c, x, y);
  }

  lemma ColumnRot4(c: Lane, x: bv16)
    requires c < 4
    ensures ColumnOf(c)(RotOps.rot4(x)) == ColOps.rot4(ColumnOf(c)(x))
  {
    RotBeta(x);
    BitRot4(x, c);
    BitRot4(x, c + 4);
    BitRot4(x, c + 8);
    BitRot4(x, c + 12);
  }

  lemma ColumnRot8(c: Lane, x: bv16)
    requires c < 4
    ensures ColumnOf(c)(RotOps.rot8(x)) == ColOps.rot8(ColumnOf(c)(x))
  {
    RotBeta(x);
    BitRot8(x, c);
    BitRot8(x, c + 4);
    BitRot8(x, c + 8);
    BitRot8(x, c + 12);
  }

  /** Reading column c commutes with the slice operations of MixColumns: no bit leaves its column. */
  lemma ColumnIsHom(c: Lane)
    requires c < 4
    ensures IsLinHom(ColumnOf(c), RotOps, ColOps)
  {
    forall x: bv16, y: bv16
      ensures ColumnOf(c)(RotOps.xor(x, y)) == ColOps.xor(ColumnOf(c)(x), ColumnOf(c)(y))
    {
      ColumnXor(c, x, y);
    }
    forall x: bv16
      ensures ColumnOf(c)(RotOps.rot4(x)) == ColOps.rot4(ColumnOf(c)(x))
    {
      ColumnRot4(c, x);
    }
    forall x: bv16
      ensures ColumnOf(c)(RotOps.rot8(x)) == ColOps.rot8(ColumnOf(c)(x))
    {
      ColumnRot8(c, x);
    }
  }

  // ---------------------------------------------------------------- the circuit on one column

  /** A slice of MixColumns' output on one column: (p + Up1 p) + Up1 q + Up2 (q + Up1 q). */
  function Mix2(p: Quad, q: Quad): Quad
  {
    QuadXor(QuadXor(QuadXor(p, Up1(p)), Up1(q)), Up2(QuadXor(q, Up1(q))))
  }

  /** A slice that also takes in the reduction by slice 7: (p + Up1 p) + (t + Up1 t) + Up1 q + Up2 (q + Up1 q). */
  function Mix3(p: Quad, t: Quad, q: Quad): Quad
  {
    QuadXor(QuadXor(QuadXor(QuadXor(p, Up1(p)), QuadXor(t, Up1(t))), Up1(q)), Up2(QuadXor(q, Up1(q))))
  }

  /** The MixColumns circuit on the slices of one column, written out. */
  function ColMix(u: Slices<Quad>): Slices<Quad>
  {
    Slices(Mix2(u.s7, u.s0), Mix3(u.s0, u.s7, u.s1), Mix2(u.s1, u.s2), Mix3(u.s2, u.s7, u.s3),
           Mix3(u.s3, u.s7, u.s4), Mix2(u.s4, u.s5), Mix2(u.s5, u.s6), Mix2(u.s6, u.s7))
  }

  lemma ColMixIsMixG(u: Slices<Quad>)
    ensures MixG(ColOps, u) == ColMix(u)
  {
  }

  // ---------------------------------------------------------------- the bytes of one column

  function Row(v: Quad, r: nat): bv1
    requires r < 4
  {
    if r == 0 then v.r0 else if r == 1 then v.r1 else if r == 2 then v.r2 else v.r3
  }

  /** The bits of the byte in row r: bit i is row r of slice i. */
  function RowBits(u: Slices<Quad>, r: nat): Slices<bv1>
    requires r < 4
  {
    Slices(Row(u.s0, r), Row(u.s1, r), Row(u.s2, r), Row(u.s3, r),
           Row(u.s4, r), Row(u.s5, r), Row(u.s6, r), Row(u.s7, r))
  }

  /** The exclusive or of two bytes, bit by bit. */
  function BitsXor(a: Slices<bv1>, b: Slices<bv1>): Slices<bv1>
  {
    Slices(BitXorOf(a.s0, b.s0), BitXorOf(a.s1, b.s1), BitXorOf(a.s2, b.s2), BitXorOf(a.s3, b.s3),
           BitXorOf(a.s4, b.s4), BitXorOf(a.s5, b.s5), BitXorOf(a.s6, b.s6), BitXorOf(a.s7, b.s7))
  }

  /** xtime on the bits of one byte: shift up, and fold bit 7 back into bits 0, 1, 3 and 4. */
  function BitsXTime(x: Slices<bv1>): Slices<bv1>
  {
    Slices(x.s7, BitXorOf(x.s0, x.s7), x.s1, BitXorOf(x.s2, x.s7), BitXorOf(x.s3, x.s7), x.s4, x.s5, x.s6)
  }

  /** a(x) times a column, on the bits of its bytes: {02} x0 + {03} x1 + x2 + x3. */
  function MixBits(x0: Slices<bv1>, x1: Slices<bv1>, x2: Slices<bv1>, x3: Slices<bv1>): Slices<bv1>
  {
    BitsXor(BitsXor(BitsXor(BitsXTime(x0), BitsXor(BitsXTime(x1), x1)), x2), x3)
  }

  lemma ColMixRow0(u: Slices<Quad>)
    ensures var a0, a1, a2, a3, a4, a5, a6, a7 := u.s0, u.s1, u.s2, u.s3, u.s4, u.s5, u.s6, u.s7;
            RowBits(ColMix(u), 0)
            == Slices(BitXorOf(BitXorOf(BitXorOf(a7.r0, a7.r1), a0.r1), BitXorOf(a0.r2, a0.r3)),
                      BitXorOf(BitXorOf(BitXorOf(BitXorOf(a0.r0, a0.r1), BitXorOf(a7.r0, a7.r1)), a1.r1), BitXorOf(a1.r2, a1.r3)),
                      BitXorOf(BitXorOf(BitXorOf(a1.r0, a1.r1), a2.r1), BitXorOf(a2.r2, a2.r3)),
                      BitXorOf(BitXorOf(BitXorOf(BitXorOf(a2.r0, a2.r1), BitXorOf(a7.r0, a7.r1)), a3.r1), BitXorOf(a3.r2, a3.r3)),
                      BitXorOf(BitXorOf(BitXorOf(BitXorOf(a3.r0, a3.r1), BitXorOf(a7.r0, a7.r1)), a4.r1), BitXorOf(a4.r2, a4.r3)),
                      BitXorOf(BitXorOf(BitXorOf(a4.r0, a4.r1), a5.r1), BitXorOf(a5.r2, a5.r3)),
                      BitXorOf(BitXorOf(BitXorOf(a5.r0, a5.r1), a6.r1), BitXorOf(a6.r2, a6.r3)),
                      BitXorOf(BitXorOf(BitXorOf(a6.r0, a6.r1), a7.r1), BitXorOf(a7.r2, a7.r3)))
  {
  }

  /** {02} x0 + {03} x1 + x2 + x3, bit by bit, exactly as MixBits computes it. */
  lemma MixBitsUnfold(x0: Slices<bv1>, x1: Slices<bv1>, x2: Slices<bv1>, x3: Slices<bv1>)
    ensures MixBits(x0, x1, x2, x3)
            == Slices(BitXorOf(BitXorOf(BitXorOf(x0.s7, BitXorOf(x1.s7, x1.s0)), x2.s0), x3.s0),
                      BitXorOf(BitXorOf(BitXorOf(BitXorOf(x0.s0, x0.s7), BitXorOf(BitXorOf(x1.s0, x1.s7), x1.s1)), x2.s1), x3.s1),
                      BitXorOf(BitXorOf(BitXorOf(x0.s1, BitXorOf(x1.s1, x1.s2)), x2.s2), x3.s2),
                      BitXorOf(BitXorOf(BitXorOf(BitXorOf(x0.s2, x0.s7), BitXorOf(BitXorOf(x1.s2, x1.s7), x1.s3)), x2.s3), x3.s3),
                      BitXorOf(BitXorOf(BitXorOf(BitXorOf(x0.s3, x0.s7), BitXorOf(BitXorOf(x1.s3, x1.s7), x1.s4)), x2.s4), x3.s4),
                      BitXorOf(BitXorOf(BitXorOf(x0.s4, BitXorOf(x1.s4, x1.s5)), x2.s5), x3.s5),
                      BitXorOf(BitXorOf(BitXorOf(x0.s5, BitXorOf(x1.s5, x1.s6)), x2.s6), x3.s6),
                      BitXorOf(BitXorOf(BitXorOf(x0.s6, BitXorOf(x1.s6, x1.s7)), x2.s7), x3.s7))
  {
  }

  // The solver reorders exclusive ors cheaply only in a formula it is given
  // outright; these two are the shapes the bytes of a column need.

  lemma Shape2(p0: bv1, p1: bv1, q1: bv1, q2: bv1, q3: bv1)
    ensures BitXorOf(BitXorOf(BitXorOf(p0, p1), q1), BitXorOf(q2, q3)) == BitXorOf(BitXorOf(BitXorOf(p0, BitXorOf(p1, q1)), q2), q3)
  {
  }

  lemma Shape3(p0: bv1, p1: bv1, t0: bv1, t1: bv1, q1: bv1, q2: bv1, q3: bv1)
    ensures BitXorOf(BitXorOf(BitXorOf(BitXorOf(p0, p1), BitXorOf(t0, t1)), q1), BitXorOf(q2, q3)) == BitXorOf(BitXorOf(BitXorOf(BitXorOf(p0, t0), BitXorOf(BitXorOf(p1, t1), q1)), q2), q3)
  {
  }

  lemma RowBitsFields(u: Slices<Quad>)
    ensures RowBits(u, 0) == Slices(u.s0.r0, u.s1.r0, u.s2.r0, u.s3.r0, u.s4.r0, u.s5.r0, u.s6.r0, u.s7.r0)
    ensures RowBits(u, 1) == Slices(u.s0.r1, u.s1.r1, u.s2.r1, u.s3.r1, u.s4.r1, u.s5.r1, u.s6.r1, u.s7.r1)
    ensures RowBits(u, 2) == Slices(u.s0.r2, u.s1.r2, u.s2.r2, u.s3.r2, u.s4.r2, u.s5.r2, u.s6.r2, u.s7.r2)
    ensures RowBits(u, 3) == Slices(u.s0.r3, u.s1.r3, u.s2.r3, u.s3.r3, u.s4.r3, u.s5.r3, u.s6.r3, u.s7.r3)
  {
  }

  /** The top row of a column after MixColumns, bit by bit. */
  lemma MixRow0(u: Slices<Quad>)
    ensures RowBits(ColMix(u), 0) == MixBits(RowBits(u, 0), RowBits(u, 1), RowBits(u, 2), RowBits(u, 3))
  {
    var a0, a1, a2, a3, a4, a5, a6, a7 := u.s0, u.s1, u.s2, u.s3, u.s4, u.s5, u.s6, u.s7;
    ColMixRow0(u);
    RowBitsFields(u);
    MixBitsUnfold(RowBits(u, 0), RowBits(u, 1), RowBits(u, 2), RowBits(u, 3));
    Shape2(a7.r0, a7.r1, a0.r1, a0.r2, a0.r3);
    Shape3(a0.r0, a0.r1, a7.r0, a7.r1, a1.r1, a1.r2, a1.r3);
    Shape2(a1.r0, a1.r1, a2.r1, a2.r2, a2.r3);
    Shape3(a2.r0, a2.r1, a7.r0, a7.r1, a3.r1, a3.r2, a3.r3);
    Shape3(a3.r0, a3.r1, a7.r0, a7.r1, a4.r1, a4.r2, a4.r3);
    Shape2(a4.r0, a4.r1, a5.r1, a5.r2, a5.r3);
    Shape2(a5.r0, a5.r1, a6.r1, a6.r2, a6.r3);
    Shape2(a6.r0, a6.r1, a7.r1, a7.r2, a7.r3);
  }

  // ---------------------------------------------------------------- every row, by symmetry

  /** Moving every row of a column up by one commutes with the circuit: the circuit treats all rows alike. */
  lemma Up1IsHom()
    ensures IsLinHom(Up1, ColOps, ColOps)
  {
  }

  lemma ColMixUp1(u: Slices<Quad>)
    ensures ColMix(Map(Up1, u)) == Map(Up1, ColMix(u))
  {
    Up1IsHom();
    Commutes(Up1, ColOps, ColOps, u);
    ColMixIsMixG(u);
    ColMixIsMixG(Map(Up1, u));
  }

  lemma RowBitsUp1(u: Slices<Quad>)
    ensures RowBits(Map(Up1, u), 0) == RowBits(u, 1)
    ensures RowBits(Map(Up1, u), 1) == RowBits(u, 2)
    ensures RowBits(Map(Up1, u), 2) == RowBits(u, 3)
    ensures RowBits(Map(Up1, u), 3) == RowBits(u, 0)
  {
    RowBitsFields(u);
    RowBitsFields(Map(Up1, u));
  }

  lemma MixRow1(u: Slices<Quad>)
    ensures RowBits(ColMix(u), 1) == MixBits(RowBits(u, 1), RowBits(u, 2), RowBits(u, 3), RowBits(u, 0))
  {
    MixRow0(Map(Up1, u));
    ColMixUp1(u);
    RowBitsUp1(u);
    RowBitsUp1(ColMix(u));
  }

  lemma MixRow2(u: Slices<Quad>)
    ensures RowBits(ColMix(u), 2) == MixBits(RowBits(u, 2), RowBits(u, 3), RowBits(u, 0), RowBits(u, 1))
  {
    MixRow1(Map(Up1, u));
    ColMixUp1(u);
    RowBitsUp1(u);
    RowBitsUp1(ColMix(u));
  }

  lemma MixRow3(u: Slices<Quad>)
    ensures RowBits(ColMix(u), 3) == MixBits(RowBits(u, 3), RowBits(u, 0), RowBits(u, 1), RowBits(u, 2))
  {
    MixRow2(Map(Up1, u));
    ColMixUp1(u);
    RowBitsUp1(u);
    RowBitsUp1(ColMix(u));
  }

  // ---------------------------------------------------------------- bytes again

  lemma GatherBitsXor(a: Slices<bv1>, b: Slices<bv1>)
    ensures Gather(BitsXor(a, b)) == Gather(a) ^ Gather(b)
  {
  }

  lemma GatherBitsXTime(x: Slices<bv1>)
    ensures Gather(BitsXTime(x)) == XTime(Gather(x))
  {
  }

  function ByteXor(a: bv8, b: bv8): bv8 { a ^ b }

  lemma GatherByteXor(a: Slices<bv1>, b: Slices<bv1>)
    ensures Gather(BitsXor(a, b)) == ByteXor(Gather(a), Gather(b))
  {
    GatherBitsXor(a, b);
  }

  lemma Times3Xor(b: bv8)
    ensures Times3(b) == ByteXor(XTime(b), b)
  {
  }

  lemma MixByteXor(b0: bv8, b1: bv8, b2: bv8, b3: bv8)
    ensures MixByte(b0, b1, b2, b3) == ByteXor(ByteXor(ByteXor(XTime(b0), Times3(b1)), b2), b3)
  {
  }

  /** On the bits of four bytes, MixBits is row 0 of a(x) times the column. */
  lemma MixBitsBytes(x0: Slices<bv1>, x1: Slices<bv1>, x2: Slices<bv1>, x3: Slices<bv1>)
    ensures Gather(MixBits(x0, x1, x2, x3)) == MixByte(Gather(x0), Gather(x1), Gather(x2), Gather(x3))
  {
    var t0, t1 := BitsXTime(x0), BitsXor(BitsXTime(x1), x1);
    GatherBitsXTime(x0);
    GatherBitsXTime(x1);
    GatherByteXor(BitsXTime(x1), x1);
    GatherByteXor(t0, t1);
    GatherByteXor(BitsXor(t0, t1), x2);
    GatherByteXor(BitsXor(BitsXor(t0, t1), x2), x3);
    Times3Xor(Gather(x1));
    MixByteXor(Gather(x0), Gather(x1), Gather(x2), Gather(x3));
  }

  /** Byte 4c + r of a block sits in lane 4r + c. */
  lemma ColumnRowLane(c: nat, r: nat)
    requires c < 4 && r < 4
    ensures LaneOfByte(4 * c + r) == ColumnLane(c) + LaneOfByte(r)
  {
    assert c == 0 || c == 1 || c == 2 || c == 3;
    assert r == 0 || r == 1 || r == 2 || r == 3;
  }

  lemma RowOfColumn(x: bv16, c: Lane, r: nat)
    requires c < 4 && r < 4
    ensures Row(Column(x, c), r) == Bit(x, c + LaneOfByte(r))
  {
    assert r == 0 || r == 1 || r == 2 || r == 3;
  }

  /** The byte in row r of column c is row r of that column of every slice. */
  lemma UnpackColumn(s: State, c: nat, r: nat)
    requires c < 4 && r < 4
    ensures Unpack(s)[4 * c + r] == Gather(RowBits(Map(ColumnOf(ColumnLane(c)), s), r))
  {
    var y := LaneOfByte(4 * c + r);
    ColumnRowLane(c, r);
    RowOfColumn(s.s0, ColumnLane(c), r);
    RowOfColumn(s.s1, ColumnLane(c), r);
    RowOfColumn(s.s2, ColumnLane(c), r);
    RowOfColumn(s.s3, ColumnLane(c), r);
    RowOfColumn(s.s4, ColumnLane(c), r);
    RowOfColumn(s.s5, ColumnLane(c), r);
    RowOfColumn(s.s6, ColumnLane(c), r);
    RowOfColumn(s.s7, ColumnLane(c), r);
    assert Map(LaneOf(y), s) == RowBits(Map(ColumnOf(ColumnLane(c)), s), r);
  }
  /** The four bytes of a column, top row first. */
  function ColumnBytes(u: Slices<Quad>): (w: seq<bv8>)
    ensures |w| == 4
  {
    [Gather(RowBits(u, 0)), Gather(RowBits(u, 1)), Gather(RowBits(u, 2)), Gather(RowBits(u, 3))]
  }

  /** The circuit on one column multiplies the column by a(x). */
  lemma ColMixBytes(u: Slices<Quad>)
    ensures ColumnBytes(ColMix(u)) == MixColumnWord(ColumnBytes(u))
  {
    var x0, x1, x2, x3 := RowBits(u, 0), RowBits(u, 1), RowBits(u, 2), RowBits(u, 3);
    MixRow0(u);
    MixRow1(u);
    MixRow2(u);
    MixRow3(u);
    MixBitsBytes(x0, x1, x2, x3);
    MixBitsBytes(x1, x2, x3, x0);
    MixBitsBytes(x2, x3, x0, x1);
    MixBitsBytes(x3, x0, x1, x2);
  }

  lemma WordAt<T>(b: seq<T>, c: nat, w: seq<T>)
    requires |b| == 16 && c < 4 && |w| == 4
    requires b[4 * c] == w[0] && b[4 * c + 1] == w[1] && b[4 * c + 2] == w[2] && b[4 * c + 3] == w[3]
    ensures b[4 * c..4 * c + 4] == w
  {
  }

  /** Column c of the block a state holds is column c of its slices. */
  lemma UnpackColumnWord(s: State, c: nat)
    requires c < 4
    ensures Unpack(s)[4 * c..4 * c + 4] == ColumnBytes(Map(ColumnOf(ColumnLane(c)), s))
  {
    var b, w := Unpack(s), ColumnBytes(Map(ColumnOf(ColumnLane(c)), s));
    UnpackColumn(s, c, 0);
    UnpackColumn(s, c, 1);
    UnpackColumn(s, c, 2);
    UnpackColumn(s, c, 3);
    assert b[4 * c] == w[0] by { assert 4 * c + 0 == 4 * c; }
    WordAt(b, c, w);
  }

  /** Column c after the bitsliced MixColumns is column c of the input times a(x). */
  lemma MixColumnsColumn(s: State, c: nat)
    requires c < 4
    ensures Unpack(MixColumns(s))[4 * c..4 * c + 4] == MixColumnWord(Unpack(s)[4 * c..4 * c + 4])
  {
    var h := ColumnOf(ColumnLane(c));
    ColumnIsHom(ColumnLane(c));
    Commutes(h, RotOps, ColOps, s);
    ColMixIsMixG(Map(h, s));
    UnpackColumnWord(MixColumns(s), c);
    UnpackColumnWord(s, c);
    ColMixBytes(Map(h, s));
  }

  /** A block is its four columns, one after the other. */
  lemma Quarters<T>(b: seq<T>)
    requires |b| == 16
    ensures b == b[0..4] + b[4..8] + b[8..12] + b[12..16]
  {
  }

  /** A block is MixColumnBytes of another as soon as each of its four columns is. */
  lemma ByColumns(m: seq<bv8>, b: seq<bv8>)
    requires |m| == 16 && |b| == 16
    requires forall c: nat :: c < 4 ==> m[4 * c..4 * c + 4] == MixColumnWord(b[4 * c..4 * c + 4])
    ensures m == MixColumnBytes(b)
  {
    assert m[0..4] == MixColumnWord(b[0..4]) by { assert 4 * 0 == 0; }
    assert m[4..8] == MixColumnWord(b[4..8]) by { assert 4 * 1 == 4; }
    assert m[8..12] == MixColumnWord(b[8..12]) by { assert 4 * 2 == 8; }
    assert m[12..16] == MixColumnWord(b[12..16]) by { assert 4 * 3 == 12; }
    Quarters(m);
  }

  /** The bitsliced MixColumns is the MixColumns of FIPS 197, section 5.1.3, on the block the state holds. */
  lemma MixColumnsIsFips(s: State)
    ensures Unpack(MixColumns(s)) == MixColumnBytes(Unpack(s))
  {
    forall c: nat | c < 4
      ensures Unpack(MixColumns(s))[4 * c..4 * c + 4] == MixColumnWord(Unpack(s)[4 * c..4 * c + 4])
    {
      MixColumnsColumn(s, c);
    }
    ByColumns(Unpack(MixColumns(s)), Unpack(s));
  }

  // ---------------------------------------------------------------- a^-1(x) a(x) = 1

  // The identity is an exclusive or of 55 products of powers of x with the
  // column that cancel down to one byte.  The sums below name each
  // exclusive or, so that the products are rewritten as whole terms.

  function Xor3(t1: bv8, t2: bv8, t3: bv8): bv8 { t1 ^ t2 ^ t3 }

  function Xor4(t1: bv8, t2: bv8, t3: bv8, t4: bv8): bv8 { t1 ^ t2 ^ t3 ^ t4 }

  function Xor5(t1: bv8, t2: bv8, t3: bv8, t4: bv8, t5: bv8): bv8 { t1 ^ t2 ^ t3 ^ t4 ^ t5 }

  function Xor11(t1: bv8, t2: bv8, t3: bv8, t4: bv8, t5: bv8, t6: bv8, t7: bv8, t8: bv8, t9: bv8, t10: bv8, t11: bv8): bv8
  {
    t1 ^ t2 ^ t3 ^ t4 ^ t5 ^ t6 ^ t7 ^ t8 ^ t9 ^ t10 ^ t11
  }

  /** XTime is linear: it distributes over exclusive or. */
  lemma XTimeXor(a: bv8, b: bv8)
    ensures XTime(a ^ b) == XTime(a) ^ XTime(b)
  {
    if a & 0x80 == 0 {
      if b & 0x80 == 0 {
        assert (a ^ b) & 0x80 == 0;
      } else {
        assert (a ^ b) & 0x80 != 0;
      }
    } else {
      if b & 0x80 == 0 {
        assert (a ^ b) & 0x80 != 0;
      } else {
        assert (a ^ b) & 0x80 == 0;
      }
    }
  }

  lemma XTimeByteXor(a: bv8, b: bv8)
    ensures XTime(ByteXor(a, b)) == ByteXor(XTime(a), XTime(b))
  {
    XTimeXor(a, b);
  }

  lemma Xor5Nested(a: bv8, b: bv8, c: bv8, d: bv8, e: bv8)
    ensures Xor5(a, b, c, d, e) == ByteXor(ByteXor(ByteXor(ByteXor(a, b), c), d), e)
  {
  }

  /** XTime distributes over an exclusive or of five bytes. */
  lemma XTimeXor5(p: bv8, q: bv8, r: bv8, s: bv8, t: bv8)
    ensures XTime(Xor5(p, q, r, s, t)) == Xor5(XTime(p), XTime(q), XTime(r), XTime(s), XTime(t))
  {
    Xor5Nested(p, q, r, s, t);
    XTimeByteXor(ByteXor(ByteXor(ByteXor(p, q), r), s), t);
    XTimeByteXor(ByteXor(ByteXor(p, q), r), s);
    XTimeByteXor(ByteXor(p, q), r);
    XTimeByteXor(p, q);
    Xor5Nested(XTime(p), XTime(q), XTime(r), XTime(s), XTime(t));
  }

  /** A row of a(x) as an exclusive or of x^0 and x^1 times the column. */
  lemma MixByteXor5(b0: bv8, b1: bv8, b2: bv8, b3: bv8)
    ensures MixByte(b0, b1, b2, b3) == Xor5(XTime(b0), XTime(b1), b1, b2, b3)
  {
  }

  /** x times a row of a(x) is that row applied to x times the column. */
  lemma XTimeMixByte(b0: bv8, b1: bv8, b2: bv8, b3: bv8)
    ensures XTime(MixByte(b0, b1, b2, b3)) == MixByte(XTime(b0), XTime(b1), XTime(b2), XTime(b3))
  {
    MixByteXor5(b0, b1, b2, b3);
    XTimeXor5(XTime(b0), XTime(b1), b1, b2, b3);
    MixByteXor5(XTime(b0), XTime(b1), XTime(b2), XTime(b3));
  }

  /** x^k times a row of a(x), k = 0 .. 3, as an exclusive or of powers of x times the column. */
  lemma MixPowers(b0: bv8, b1: bv8, b2: bv8, b3: bv8)
    ensures MixByte(b0, b1, b2, b3) == Xor5(XTime(b0), XTime(b1), b1, b2, b3)
    ensures XTime(MixByte(b0, b1, b2, b3)) == Xor5(XTime(XTime(b0)), XTime(XTime(b1)), XTime(b1), XTime(b2), XTime(b3))
    ensures XTime(XTime(MixByte(b0, b1, b2, b3)))
         == Xor5(XTime(XTime(XTime(b0))), XTime(XTime(XTime(b1))), XTime(XTime(b1)), XTime(XTime(b2)), XTime(XTime(b3)))
    ensures XTime(XTime(XTime(MixByte(b0, b1, b2, b3))))
         == Xor5(XTime(XTime(XTime(XTime(b0)))), XTime(XTime(XTime(XTime(b1)))), XTime(XTime(XTime(b1))),
                 XTime(XTime(XTime(b2))), XTime(XTime(XTime(b3))))
  {
    MixByteXor5(b0, b1, b2, b3);
    XTimeMixByte(b0, b1, b2, b3);
    MixByteXor5(XTime(b0), XTime(b1), XTime(b2), XTime(b3));
    XTimeMixByte(XTime(b0), XTime(b1), XTime(b2), XTime(b3));
    MixByteXor5(XTime(XTime(b0)), XTime(XTime(b1)), XTime(XTime(b2)), XTime(XTime(b3)));
    XTimeMixByte(XTime(XTime(b0)), XTime(XTime(b1)), XTime(XTime(b2)), XTime(XTime(b3)));
    MixByteXor5(XTime(XTime(XTime(b0))), XTime(XTime(XTime(b1))), XTime(XTime(XTime(b2))), XTime(XTime(XTime(b3))));
  }

  lemma Times14Xor(b: bv8) ensures Times14(b) == Xor3(XTime(XTime(XTime(b))), XTime(XTime(b)), XTime(b)) { }

  lemma Times11Xor(b: bv8) ensures Times11(b) == Xor3(XTime(XTime(XTime(b))), XTime(b), b) { }

  lemma Times13Xor(b: bv8) ensures Times13(b) == Xor3(XTime(XTime(XTime(b))), XTime(XTime(b)), b) { }

  lemma Times9Xor(b: bv8) ensures Times9(b) == ByteXor(XTime(XTime(XTime(b))), b) { }

  lemma InvMixByteXor4(b0: bv8, b1: bv8, b2: bv8, b3: bv8)
    ensures InvMixByte(b0, b1, b2, b3) == Xor4(Times14(b0), Times11(b1), Times13(b2), Times9(b3))
  {
  }

  lemma Xor4Sums(t14: bv8, t11: bv8, t13: bv8, t9: bv8,
                  a: bv8, b: bv8, c: bv8, d: bv8, e: bv8, f: bv8, g: bv8, h: bv8, i: bv8, j: bv8, k: bv8)
    requires t14 == a ^ b ^ c && t11 == d ^ e ^ f && t13 == g ^ h ^ i && t9 == j ^ k
    ensures Xor4(t14, t11, t13, t9) == Xor11(a, b, c, d, e, f, g, h, i, j, k)
  {
  }

  lemma Xor4Flat(a: bv8, b: bv8, c: bv8, d: bv8, e: bv8, f: bv8, g: bv8, h: bv8, i: bv8, j: bv8, k: bv8)
    ensures Xor4(Xor3(a, b, c), Xor3(d, e, f), Xor3(g, h, i), ByteXor(j, k)) == Xor11(a, b, c, d, e, f, g, h, i, j, k)
  {
    Xor4Sums(Xor3(a, b, c), Xor3(d, e, f), Xor3(g, h, i), ByteXor(j, k), a, b, c, d, e, f, g, h, i, j, k);
  }


  /** A row of a^-1(x) as an exclusive or of powers of x times the column. */
  lemma InvMixPowers(b0: bv8, b1: bv8, b2: bv8, b3: bv8)
    ensures InvMixByte(b0, b1, b2, b3)
         == Xor11(XTime(XTime(XTime(b0))), XTime(XTime(b0)), XTime(b0), XTime(XTime(XTime(b1))), XTime(b1), b1,
                  XTime(XTime(XTime(b2))), XTime(XTime(b2)), b2, XTime(XTime(XTime(b3))), b3)
  {
    InvMixByteXor4(b0, b1, b2, b3);
    Times14Xor(b0);
    Times11Xor(b1);
    Times13Xor(b2);
    Times9Xor(b3);
    Xor4Flat(XTime(XTime(XTime(b0))), XTime(XTime(b0)), XTime(b0), XTime(XTime(XTime(b1))), XTime(b1), b1,
             XTime(XTime(XTime(b2))), XTime(XTime(b2)), b2, XTime(XTime(XTime(b3))), b3);
  }

  /**
   * Row 0 of a^-1(x) a(x), with each product of a power of x and a row of
   * a(x) written out: ai, bi, ci and di are x^i times the four bytes of the
   * column, and every term but a0 cancels.
   */
  lemma Cancel(m03: bv8, m02: bv8, m01: bv8, m13: bv8, m11: bv8, m10: bv8, m23: bv8, m22: bv8, m20: bv8, m33: bv8, m30: bv8,
               a0: bv8, a1: bv8, a2: bv8, a3: bv8, a4: bv8, b0: bv8, b1: bv8, b2: bv8, b3: bv8, b4: bv8,
               c0: bv8, c1: bv8, c2: bv8, c3: bv8, c4: bv8, d0: bv8, d1: bv8, d2: bv8, d3: bv8, d4: bv8)
    requires m03 == a4 ^ b4 ^ b3 ^ c3 ^ d3 && m02 == a3 ^ b3 ^ b2 ^ c2 ^ d2 && m01 == a2 ^ b2 ^ b1 ^ c1 ^ d1
    requires m13 == b4 ^ c4 ^ c3 ^ d3 ^ a3 && m11 == b2 ^ c2 ^ c1 ^ d1 ^ a1 && m10 == b1 ^ c1 ^ c0 ^ d0 ^ a0
    requires m23 == c4 ^ d4 ^ d3 ^ a3 ^ b3 && m22 == c3 ^ d3 ^ d2 ^ a2 ^ b2 && m20 == c1 ^ d1 ^ d0 ^ a0 ^ b0
    requires m33 == d4 ^ a4 ^ a3 ^ b3 ^ c3 && m30 == d1 ^ a1 ^ a0 ^ b0 ^ c0
    ensures Xor11(m03, m02, m01, m13, m11, m10, m23, m22, m20, m33, m30) == a0
  {
  }

  /** Cancel, with the products as sums of the powers. */
  lemma CancelSums(a0: bv8, a1: bv8, a2: bv8, a3: bv8, a4: bv8, b0: bv8, b1: bv8, b2: bv8, b3: bv8, b4: bv8,
                   c0: bv8, c1: bv8, c2: bv8, c3: bv8, c4: bv8, d0: bv8, d1: bv8, d2: bv8, d3: bv8, d4: bv8)
    ensures Xor11(Xor5(a4, b4, b3, c3, d3), Xor5(a3, b3, b2, c2, d2), Xor5(a2, b2, b1, c1, d1),
                  Xor5(b4, c4, c3, d3, a3), Xor5(b2, c2, c1, d1, a1), Xor5(b1, c1, c0, d0, a0),
                  Xor5(c4, d4, d3, a3, b3), Xor5(c3, d3, d2, a2, b2), Xor5(c1, d1, d0, a0, b0),
                  Xor5(d4, a4, a3, b3, c3), Xor5(d1, a1, a0, b0, c0)) == a0
  {
    Cancel(Xor5(a4, b4, b3, c3, d3), Xor5(a3, b3, b2, c2, d2), Xor5(a2, b2, b1, c1, d1),
           Xor5(b4, c4, c3, d3, a3), Xor5(b2, c2, c1, d1, a1), Xor5(b1, c1, c0, d0, a0),
           Xor5(c4, d4, d3, a3, b3), Xor5(c3, d3, d2, a2, b2), Xor5(c1, d1, d0, a0, b0),
           Xor5(d4, a4, a3, b3, c3), Xor5(d1, a1, a0, b0, c0),
           a0, a1, a2, a3, a4, b0, b1, b2, b3, b4, c0, c1, c2, c3, c4, d0, d1, d2, d3, d4);
  }

  /** Row 0 of InvMixColumnWord(MixColumnWord(w)) is w[0]: a^-1(x) a(x) = 1 modulo x^4 + 1. */
  lemma InvMixMixRow(w0: bv8, w1: bv8, w2: bv8, w3: bv8)
    ensures InvMixByte(MixByte(w0, w1, w2, w3), MixByte(w1, w2, w3, w0), MixByte(w2, w3, w0, w1), MixByte(w3, w0, w1, w2)) == w0
  {
    InvMixPowers(MixByte(w0, w1, w2, w3), MixByte(w1, w2, w3, w0), MixByte(w2, w3, w0, w1), MixByte(w3, w0, w1, w2));
    MixPowers(w0, w1, w2, w3);
    MixPowers(w1, w2, w3, w0);
    MixPowers(w2, w3, w0, w1);
    MixPowers(w3, w0, w1, w2);
    CancelSums(w0, XTime(w0), XTime(XTime(w0)), XTime(XTime(XTime(w0))), XTime(XTime(XTime(XTime(w0)))),
               w1, XTime(w1), XTime(XTime(w1)), XTime(XTime(XTime(w1))), XTime(XTime(XTime(XTime(w1)))),
               w2, XTime(w2), XTime(XTime(w2)), XTime(XTime(XTime(w2))), XTime(XTime(XTime(XTime(w2)))),
               w3, XTime(w3), XTime(XTime(w3)), XTime(XTime(XTime(w3))), XTime(XTime(XTime(XTime(w3)))));
  }

  /** InvMixColumnWord undoes MixColumnWord: (5.10) inverts (5.6) on every column. */
  lemma InvMixMixWord(w: seq<bv8>)
    requires |w| == 4
    ensures InvMixColumnWord(MixColumnWord(w)) == w
  {
    InvMixMixRow(w[0], w[1], w[2], w[3]);
    InvMixMixRow(w[1], w[2], w[3], w[0]);
    InvMixMixRow(w[2], w[3], w[0], w[1]);
    InvMixMixRow(w[3], w[0], w[1], w[2]);
  }

  /** InvMixColumnBytes undoes MixColumnBytes on every block. */
  lemma InvMixMixBytes(b: seq<bv8>)
    requires |b| == 16
    ensures InvMixColumnBytes(MixColumnBytes(b)) == b
  {
    var w0, w1, w2, w3 := b[0..4], b[4..8], b[8..12], b[12..16];
    MixColumnBytesColumns(w0, w1, w2, w3);
    InvMixMixWord(w0);
    InvMixMixWord(w1);
    InvMixMixWord(w2);
    InvMixMixWord(w3);
    Quarters(b);
  }

  lemma MixColumnBytesColumns(w0: seq<bv8>, w1: seq<bv8>, w2: seq<bv8>, w3: seq<bv8>)
    requires |w0| == 4 && |w1| == 4 && |w2| == 4 && |w3| == 4
    ensures InvMixColumnBytes(MixColumnBytes(w0 + w1 + w2 + w3))
         == InvMixColumnWord(MixColumnWord(w0)) + InvMixColumnWord(MixColumnWord(w1))
          + InvMixColumnWord(MixColumnWord(w2)) + InvMixColumnWord(MixColumnWord(w3))
  {
    var b := w0 + w1 + w2 + w3;
    assert b[0..4] == w0 && b[4..8] == w1 && b[8..12] == w2 && b[12..16] == w3;
    var m := MixColumnWord(w0) + MixColumnWord(w1) + MixColumnWord(w2) + MixColumnWord(w3);
    assert m[0..4] == MixColumnWord(w0) && m[4..8] == MixColumnWord(w1);
    assert m[8..12] == MixColumnWord(w2) && m[12..16] == MixColumnWord(w3);
  }

  /** The bitsliced InvMixColumns is the InvMixColumns of FIPS 197, section 5.3.3, on the block the state holds. */
  lemma InvMixColumnsIsFips(s: State)
    ensures Unpack(InvMixColumns(s)) == InvMixColumnBytes(Unpack(s))
  {
    var t := InvMixColumns(s);
    MixColumnsInverse(s);
    MixColumnsIsFips(t);
    InvMixMixBytes(Unpack(t));
  }

  /** MixColumnBytes undoes InvMixColumnBytes on every block, so the two are inverse bijections. */
  lemma MixInvMixBytes(b: seq<bv8>)
    requires |b| == 16
    ensures MixColumnBytes(InvMixColumnBytes(b)) == b
  {
    var s := Pack(b);
    UnpackPack(b);
    InvMixColumnsIsFips(s);
    MixColumnsIsFips(InvMixColumns(s));
    MixColumnsInverse(s);
  }
}
