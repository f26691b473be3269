/**
 * SubBytes on the bitsliced state (aesbs_SubBytes_core, src/aes-bs.c).
 *
 * The S-box is a straight-line boolean circuit: a linear top layer that differs
 * between the two directions, a shared non-linear middle that inverts in GF(2^8)
 * through GF(2^4), and a linear bottom layer that again differs by direction.
 * The circuit is written once over any carrier of boolean operations; on
 * uint16_t slices it substitutes all 16 bytes of the block at once, on a single
 * bit it is the S-box of one byte.  Because reading one lane commutes with the
 * slice operations, every lane of SubBytes is the one-byte S-box of that lane.
 */
module SubBytesCircuit {
  import opened Bitslice

  /** The top-layer values the non-linear middle consumes. */
  datatype Top<T> = Top(T1: T, T2: T, T3: T, T4: T, T6: T, T8: T, T9: T, T10: T, T13: T, T14: T, T15: T, T16: T, T17: T, T19: T, T20: T, T22: T, T23: T, T24: T, T25: T, T26: T, T27: T, D: T)

  /** The products of the middle layer that the bottom layers combine. */
  datatype Products<T> = Products(M46: T, M47: T, M48: T, M49: T, M50: T, M51: T, M52: T, M53: T, M54: T, M55: T, M56: T, M57: T, M58: T, M59: T, M60: T, M61: T, M62: T, M63: T)

  /** Top linear layer of the forward S-box (the !needs_inverse branch). */
  function TopForward<T>(o: Ops<T>, u: Slices<T>): Top<T>
  {
    var U0, U1, U2, U3, U4, U5, U6, U7 := u.s7, u.s6, u.s5, u.s4, u.s3, u.s2, u.s1, u.s0;
    var T1 := o.xor(U0, U3);
    var T2 := o.xor(U0, U5);
    var T3 := o.xor(U0, U6);
    var T4 := o.xor(U3, U5);
    var T5 := o.xor(U4, U6);
    var T6 := o.xor(T1, T5);
    var T7 := o.xor(U1, U2);
    var T8 := o.xor(U7, T6);
    var T9 := o.xor(U7, T7);
    var T10 := o.xor(T6, T7);
    var T11 := o.xor(U1, U5);
    var T12 := o.xor(U2, U5);
    var T13 := o.xor(T3, T4);
    var T14 := o.xor(T6, T11);
    var T15 := o.xor(T5, T11);
    var T16 := o.xor(T5, T12);
    var T17 := o.xor(T9, T16);
    var T18 := o.xor(U3, U7);
    var T19 := o.xor(T7, T18);
    var T20 := o.xor(T1, T19);
    var T21 := o.xor(U6, U7);
    var T22 := o.xor(T7, T21);
    var T23 := o.xor(T2, T22);
    var T24 := o.xor(T2, T10);
    var T25 := o.xor(T20, T17);
    var T26 := o.xor(T3, T16);
    var T27 := o.xor(T1, T12);
    var D := U7;
    Top(T1, T2, T3, T4, T6, T8, T9, T10, T13, T14, T15, T16, T17, T19, T20, T22, T23, T24, T25, T26, T27, D)
  }

  /** Top linear layer of the inverse S-box. */
  function TopInverse<T>(o: Ops<T>, u: Slices<T>): Top<T>
  {
    var U0, U1, U2, U3, U4, U5, U6, U7 := u.s7, u.s6, u.s5, u.s4, u.s3, u.s2, u.s1, u.s0;
    var T23 := o.xor(U0, U3);
    var T22 := o.not(o.xor(U1, U3));
    var T2 := o.not(o.xor(U0, U1));
    var T1 := o.xor(U3, U4);
    var T24 := o.not(o.xor(U4, U7));
    var R5 := o.xor(U6, U7);
    var T8 := o.not(o.xor(U1, T23));
    var T19 := o.xor(T22, R5);
    var T9 := o.not(o.xor(U7, T1));
    var T10 := o.xor(T2, T24);
    var T13 := o.xor(T2, R5);
    var T3 := o.xor(T1, R5);
    var T25 := o.not(o.xor(U2, T1));
    var R13 := o.xor(U1, U6);
    var T17 := o.not(o.xor(U2, T19));
    var T20 := o.xor(T24, R13);
    var T4 := o.xor(U4, T8);
    var R17 := o.not(o.xor(U2, U5));
    var R18 := o.not(o.xor(U5, U6));
    var R19 := o.not(o.xor(U2, U4));
    var Y5 := o.xor(U0, R17);
    var T6 := o.xor(T22, R17);
    var T16 := o.xor(R13, R19);
    var T27 := o.xor(T1, R18);
    var T15 := o.xor(T10, T27);
    var T14 := o.xor(T10, R18);
    var T26 := o.xor(T3, T16);
    var D := Y5;
    Top(T1, T2, T3, T4, T6, T8, T9, T10, T13, T14, T15, T16, T17, T19, T20, T22, T23, T24, T25, T26, T27, D)
  }

  /** The shared non-linear middle layer. */
  function Middle<T>(o: Ops<T>, t: Top<T>): Products<T>
  {
    var T1, T2, T3, T4, T6, T8, T9, T10, T13, T14, T15, T16, T17, T19, T20, T22, T23, T24, T25, T26, T27, D := t.T1, t.T2, t.T3, t.T4, t.T6, t.T8, t.T9, t.T10, t.T13, t.T14, t.T15, t.T16, t.T17, t.T19, t.T20, t.T22, t.T23, t.T24, t.T25, t.T26, t.T27, t.D;
    var M1 := o.and(T13, T6);
    var M2 := o.and(T23, T8);
    var M3 := o.xor(T14, M1);
    var M4 := o.and(T19, D);
    var M5 := o.xor(M4, M1);
    var M6 := o.and(T3, T16);
    var M7 := o.and(T22, T9);
    var M8 := o.xor(T26, M6);
    var M9 := o.and(T20, T17);
    var M10 := o.xor(M9, M6);
    var M11 := o.and(T1, T15);
    var M12 := o.and(T4, T27);
    var M13 := o.xor(M12, M11);
    var M14 := o.and(T2, T10);
    var M15 := o.xor(M14, M11);
    var M16 := o.xor(M3, M2);
    var M17 := o.xor(M5, T24);
    var M18 := o.xor(M8, M7);
    var M19 := o.xor(M10, M15);
    var M20 := o.xor(M16, M13);
    var M21 := o.xor(M17, M15);
    var M22 := o.xor(M18, M13);
    var M23 := o.xor(M19, T25);
    var M24 := o.xor(M22, M23);
    var M25 := o.and(M22, M20);
    var M26 := o.xor(M21, M25);
    var M27 := o.xor(M20, M21);
    var M28 := o.xor(M23, M25);
    var M29 := o.and(M28, M27);
    var M30 := o.and(M26, M24);
    var M31 := o.and(M20, M23);
    var M32 := o.and(M27, M31);
    var M33 := o.xor(M27, M25);
    var M34 := o.and(M21, M22);
    var M35 := o.and(M24, M34);
    var M36 := o.xor(M24, M25);
    var M37 := o.xor(M21, M29);
    var M38 := o.xor(M32, M33);
    var M39 := o.xor(M23, M30);
    var M40 := o.xor(M35, M36);
    var M41 := o.xor(M38, M40);
    var M42 := o.xor(M37, M39);
    var M43 := o.xor(M37, M38);
    var M44 := o.xor(M39, M40);
    var M45 := o.xor(M42, M41);
    var M46 := o.and(M44, T6);
    var M47 := o.and(M40, T8);
    var M48 := o.and(M39, D);
    var M49 := o.and(M43, T16);
    var M50 := o.and(M38, T9);
    var M51 := o.and(M37, T17);
    var M52 := o.and(M42, T15);
    var M53 := o.and(M45, T27);
    var M54 := o.and(M41, T10);
    var M55 := o.and(M44, T13);
    var M56 := o.and(M40, T23);
    var M57 := o.and(M39, T19);
    var M58 := o.and(M43, T3);
    var M59 := o.and(M38, T22);
    var M60 := o.and(M37, T20);
    var M61 := o.and(M42, T1);
    var M62 := o.and(M45, T4);
    var M63 := o.and(M41, T2);
    Products(M46, M47, M48, M49, M50, M51, M52, M53, M54, M55, M56, M57, M58, M59, M60, M61, M62, M63)
  }

  /** Bottom linear layer of the forward S-box; output S0 goes to slice 7. */
  function BottomForward<T>(o: Ops<T>, m: Products<T>): Slices<T>
  {
    var L0 := o.xor(m.M61, m.M62);
    var L1 := o.xor(m.M50, m.M56);
    var L2 := o.xor(m.M46, m.M48);
    var L3 := o.xor(m.M47, m.M55);
    var L4 := o.xor(m.M54, m.M58);
    var L5 := o.xor(m.M49, m.M61);
    var L6 := o.xor(m.M62, L5);
    var L7 := o.xor(m.M46, L3);
    var L8 := o.xor(m.M51, m.M59);
    var L9 := o.xor(m.M52, m.M53);
    var L10 := o.xor(m.M53, L4);
    var L11 := o.xor(m.M60, L2);
    var L12 := o.xor(m.M48, m.M51);
    var L13 := o.xor(m.M50, L0);
    var L14 := o.xor(m.M52, m.M61);
    var L15 := o.xor(m.M55, L1);
    var L16 := o.xor(m.M56, L0);
    var L17 := o.xor(m.M57, L1);
    var L18 := o.xor(m.M58, L8);
    var L19 := o.xor(m.M63, L4);
    var L20 := o.xor(L0, L1);
    var L21 := o.xor(L1, L7);
    var L22 := o.xor(L3, L12);
    var L23 := o.xor(L18, L2);
    var L24 := o.xor(L15, L9);
    var L25 := o.xor(L6, L10);
    var L26 := o.xor(L7, L9);
    var L27 := o.xor(L8, L10);
    var L28 := o.xor(L11, L14);
    var L29 := o.xor(L11, L17);
    var S0 := o.xor(L6, L24);
    var S1 := o.not(o.xor(L16, L26));
    var S2 := o.not(o.xor(L19, L28));
    var S3 := o.xor(L6, L21);
    var S4 := o.xor(L20, L22);
    var S5 := o.xor(L25, L29);
    var S6 := o.not(o.xor(L13, L27));
    var S7 := o.not(o.xor(L6, L23));
    Slices(S7, S6, S5, S4, S3, S2, S1, S0)
  }

  /** Bottom linear layer of the inverse S-box; output W0 goes to slice 7. */
  function BottomInverse<T>(o: Ops<T>, m: Products<T>): Slices<T>
  {
    var P0 := o.xor(m.M52, m.M61);
    var P1 := o.xor(m.M58, m.M59);
    var P2 := o.xor(m.M54, m.M62);
    var P3 := o.xor(m.M47, m.M50);
    var P4 := o.xor(m.M48, m.M56);
    var P5 := o.xor(m.M46, m.M51);
    var P6 := o.xor(m.M49, m.M60);
    var P7 := o.xor(P0, P1);
    var P8 := o.xor(m.M50, m.M53);
    var P9 := o.xor(m.M55, m.M63);
    var P10 := o.xor(m.M57, P4);
    var P11 := o.xor(P0, P3);
    var P12 := o.xor(m.M46, m.M48);
    var P13 := o.xor(m.M49, m.M51);
    var P14 := o.xor(m.M49, m.M62);
    var P15 := o.xor(m.M54, m.M59);
    var P16 := o.xor(m.M57, m.M61);
    var P17 := o.xor(m.M58, P2);
    var P18 := o.xor(m.M63, P5);
    var P19 := o.xor(P2, P3);
    var P20 := o.xor(P4, P6);
    var P22 := o.xor(P2, P7);
    var P23 := o.xor(P7, P8);
    var P24 := o.xor(P5, P7);
    var P25 := o.xor(P6, P10);
    var P26 := o.xor(P9, P11);
    var P27 := o.xor(P10, P18);
    var P28 := o.xor(P11, P25);
    var P29 := o.xor(P15, P20);
    var W0 := o.xor(P13, P22);
    var W1 := o.xor(P26, P29);
    var W2 := o.xor(P17, P28);
    var W3 := o.xor(P12, P22);
    var W4 := o.xor(P23, P27);
    var W5 := o.xor(P19, P24);
    var W6 := o.xor(P14, P23);
    var W7 := o.xor(P9, P16);
    Slices(W7, W6, W5, W4, W3, W2, W1, W0)
  }

  /**
   * aesbs_SubBytes_core: the direction flag chooses the top and the bottom
   * layer; the middle layer is shared.
   */
  function SubBytesCore<T>(o: Ops<T>, u: Slices<T>, needsInverse: bool): Slices<T>
  {
    var t := if needsInverse then TopInverse(o, u) else TopForward(o, u);
    var m := Middle(o, t);
    if needsInverse then BottomInverse(o, m) else BottomForward(o, m)
  }

  /** aesbs_SubBytes */
  function SubBytes(s: State): State
  {
    SubBytesCore(SliceOps, s, false)
  }

  /** aesbs_InvSubBytes */
  function InvSubBytes(s: State): State
  {
    SubBytesCore(SliceOps, s, true)
  }

  /** Any map that respects the boolean operations commutes with the whole circuit. */
  lemma CoreCommutes<T(!new), U>(h: T -> U, a: Ops<T>, b: Ops<U>, u: Slices<T>, needsInverse: bool)
    requires IsHom(h, a, b)
    ensures SubBytesCore(b, Map(h, u), needsInverse) == Map(h, SubBytesCore(a, u, needsInverse))
  {
  }

  /** The S-box of one byte: the same circuit evaluated on a single lane. */
  function Sbox(b: bv8): bv8
  {
    Gather(SubBytesCore(LaneOps, Spread(b), false))
  }

  /** The inverse S-box of one byte. */
  function InvSbox(b: bv8): bv8
  {
    Gather(SubBytesCore(LaneOps, Spread(b), true))
  }

  /** SubBytes substitutes every lane independently, each by the one-byte S-box. */
  lemma SubBytesLanes(s: State, p: Lane)
    ensures LaneByte(SubBytes(s), p) == Sbox(LaneByte(s, p))
    ensures LaneByte(InvSubBytes(s), p) == InvSbox(LaneByte(s, p))
  {
    LaneIsHom(p);
    CoreCommutes(LaneOf(p), SliceOps, LaneOps, s, false);
    CoreCommutes(LaneOf(p), SliceOps, LaneOps, s, true);
    SpreadGather(Map(LaneOf(p), s));
  }

  /** All 16 lanes set to 0 or all to 1. */
  function Fill(bit: bool): bv16
  {
    if bit then 0xffff else 0
  }

  /** The state whose lane y holds the byte 16 * x + y. */
  function Row(x: bv4): State
  {
    Slices(0xaaaa, 0xcccc, 0xf0f0, 0xff00, Fill(x & 1 != 0), Fill(x & 2 != 0), Fill(x & 4 != 0), Fill(x & 8 != 0))
  }

  lemma RowLanes(x: bv4, y: Lane)
    ensures LaneByte(Row(x), y) == ((x as bv8) << 4) | (y as bv8)
  {
  }

  /** Row x of the S-box of FIPS 197, Figure 7: column y holds the substitute of 16 * x + y. */
  function SboxRow(x: bv4): (r: seq<bv8>)
    ensures |r| == 16
  {
    if x == 0 then [0x63, 0x7c, 0x77, 0x7b, 0xf2, 0x6b, 0x6f, 0xc5, 0x30, 0x01, 0x67, 0x2b, 0xfe, 0xd7, 0xab, 0x76] else
    if x == 1 then [0xca, 0x82, 0xc9, 0x7d, 0xfa, 0x59, 0x47, 0xf0, 0xad, 0xd4, 0xa2, 0xaf, 0x9c, 0xa4, 0x72, 0xc0] else
    if x == 2 then [0xb7, 0xfd, 0x93, 0x26, 0x36, 0x3f, 0xf7, 0xcc, 0x34, 0xa5, 0xe5, 0xf1, 0x71, 0xd8, 0x31, 0x15] else
    if x == 3 then [0x04, 0xc7, 0x23, 0xc3, 0x18, 0x96, 0x05, 0x9a, 0x07, 0x12, 0x80, 0xe2, 0xeb, 0x27, 0xb2, 0x75] else
    if x == 4 then [0x09, 0x83, 0x2c, 0x1a, 0x1b, 0x6e, 0x5a, 0xa0, 0x52, 0x3b, 0xd6, 0xb3, 0x29, 0xe3, 0x2f, 0x84] else
    if x == 5 then [0x53, 0xd1, 0x00, 0xed, 0x20, 0xfc, 0xb1, 0x5b, 0x6a, 0xcb, 0xbe, 0x39, 0x4a, 0x4c, 0x58, 0xcf] else
    if x == 6 then [0xd0, 0xef, 0xaa, 0xfb, 0x43, 0x4d, 0x33, 0x85, 0x45, 0xf9, 0x02, 0x7f, 0x50, 0x3c, 0x9f, 0xa8] else
    if x == 7 then [0x51, 0xa3, 0x40, 0x8f, 0x92, 0x9d, 0x38, 0xf5, 0xbc, 0xb6, 0xda, 0x21, 0x10, 0xff, 0xf3, 0xd2] else
    if x == 8 then [0xcd, 0x0c, 0x13, 0xec, 0x5f, 0x97, 0x44, 0x17, 0xc4, 0xa7, 0x7e, 0x3d, 0x64, 0x5d, 0x19, 0x73] else
    if x == 9 then [0x60, 0x81, 0x4f, 0xdc, 0x22, 0x2a, 0x90, 0x88, 0x46, 0xee, 0xb8, 0x14, 0xde, 0x5e, 0x0b, 0xdb] else
    if x == 10 then [0xe0, 0x32, 0x3a, 0x0a, 0x49, 0x06, 0x24, 0x5c, 0xc2, 0xd3, 0xac, 0x62, 0x91, 0x95, 0xe4, 0x79] else
    if x == 11 then [0xe7, 0xc8, 0x37, 0x6d, 0x8d, 0xd5, 0x4e, 0xa9, 0x6c, 0x56, 0xf4, 0xea, 0x65, 0x7a, 0xae, 0x08] else
    if x == 12 then [0xba, 0x78, 0x25, 0x2e, 0x1c, 0xa6, 0xb4, 0xc6, 0xe8, 0xdd, 0x74, 0x1f, 0x4b, 0xbd, 0x8b, 0x8a] else
    if x == 13 then [0x70, 0x3e, 0xb5, 0x66, 0x48, 0x03, 0xf6, 0x0e, 0x61, 0x35, 0x57, 0xb9, 0x86, 0xc1, 0x1d, 0x9e] else
    if x == 14 then [0xe1, 0xf8, 0x98, 0x11, 0x69, 0xd9, 0x8e, 0x94, 0x9b, 0x1e, 0x87, 0xe9, 0xce, 0x55, 0x28, 0xdf] else
    [0x8c, 0xa1, 0x89, 0x0d, 0xbf, 0xe6, 0x42, 0x68, 0x41, 0x99, 0x2d, 0x0f, 0xb0, 0x54, 0xbb, 0x16]
  }

  /** Row x of the inverse S-box of FIPS 197, Figure 14. */
  function InvSboxRow(x: bv4): (r: seq<bv8>)
    ensures |r| == 16
  {
    if x == 0 then [0x52, 0x09, 0x6a, 0xd5, 0x30, 0x36, 0xa5, 0x38, 0xbf, 0x40, 0xa3, 0x9e, 0x81, 0xf3, 0xd7, 0xfb] else
    if x == 1 then [0x7c, 0xe3, 0x39, 0x82, 0x9b, 0x2f, 0xff, 0x87, 0x34, 0x8e, 0x43, 0x44, 0xc4, 0xde, 0xe9, 0xcb] else
    if x == 2 then [0x54, 0x7b, 0x94, 0x32, 0xa6, 0xc2, 0x23, 0x3d, 0xee, 0x4c, 0x95, 0x0b, 0x42, 0xfa, 0xc3, 0x4e] else
    if x == 3 then [0x08, 0x2e, 0xa1, 0x66, 0x28, 0xd9, 0x24, 0xb2, 0x76, 0x5b, 0xa2, 0x49, 0x6d, 0x8b, 0xd1, 0x25] else
    if x == 4 then [0x72, 0xf8, 0xf6, 0x64, 0x86, 0x68, 0x98, 0x16, 0xd4, 0xa4, 0x5c, 0xcc, 0x5d, 0x65, 0xb6, 0x92] else
    if x == 5 then [0x6c, 0x70, 0x48, 0x50, 0xfd, 0xed, 0xb9, 0xda, 0x5e, 0x15, 0x46, 0x57, 0xa7, 0x8d, 0x9d, 0x84] else
    if x == 6 then [0x90, 0xd8, 0xab, 0x00, 0x8c, 0xbc, 0xd3, 0x0a, 0xf7, 0xe4, 0x58, 0x05, 0xb8, 0xb3, 0x45, 0x06] else
    if x == 7 then [0xd0, 0x2c, 0x1e, 0x8f, 0xca, 0x3f, 0x0f, 0x02, 0xc1, 0xaf, 0xbd, 0x03, 0x01, 0x13, 0x8a, 0x6b] else
    if x == 8 then [0x3a, 0x91, 0x11, 0x41, 0x4f, 0x67, 0xdc, 0xea, 0x97, 0xf2, 0xcf, 0xce, 0xf0, 0xb4, 0xe6, 0x73] else
    if x == 9 then [0x96, 0xac, 0x74, 0x22, 0xe7, 0xad, 0x35, 0x85, 0xe2, 0xf9, 0x37, 0xe8, 0x1c, 0x75, 0xdf, 0x6e] else
    if x == 10 then [0x47, 0xf1, 0x1a, 0x71, 0x1d, 0x29, 0xc5, 0x89, 0x6f, 0xb7, 0x62, 0x0e, 0xaa, 0x18, 0xbe, 0x1b] else
    if x == 11 then [0xfc, 0x56, 0x3e, 0x4b, 0xc6, 0xd2, 0x79, 0x20, 0x9a, 0xdb, 0xc0, 0xfe, 0x78, 0xcd, 0x5a, 0xf4] else
    if x == 12 then [0x1f, 0xdd, 0xa8, 0x33, 0x88, 0x07, 0xc7, 0x31, 0xb1, 0x12, 0x10, 0x59, 0x27, 0x80, 0xec, 0x5f] else
    if x == 13 then [0x60, 0x51, 0x7f, 0xa9, 0x19, 0xb5, 0x4a, 0x0d, 0x2d, 0xe5, 0x7a, 0x9f, 0x93, 0xc9, 0x9c, 0xef] else
    if x == 14 then [0xa0, 0xe0, 0x3b, 0x4d, 0xae, 0x2a, 0xf5, 0xb0, 0xc8, 0xeb, 0xbb, 0x3c, 0x83, 0x53, 0x99, 0x61] else
    [0x17, 0x2b, 0x04, 0x7e, 0xba, 0x77, 0xd6, 0x26, 0xe1, 0x69, 0x14, 0x63, 0x55, 0x21, 0x0c, 0x7d]
  }

  /** Rows 0.. of the S-box, by evaluating the circuit on Row(x). */
  lemma TableRows0(x: bv4)
    requires x < 4
    ensures SubBytes(Row(x)) == FromLanes(SboxRow(x))
  {
  }

  /** Rows 0.. of the inverse S-box. */
  lemma InvTableRows0(x: bv4)
    requires x < 4
    ensures InvSubBytes(Row(x)) == FromLanes(InvSboxRow(x))
  {
  }

  lemma InverseRows0(x: bv4)
    requires x < 4
    ensures InvSubBytes(SubBytes(Row(x))) == Row(x) && SubBytes(InvSubBytes(Row(x))) == Row(x)
  {
  }

  /** Rows 4.. of the S-box, by evaluating the circuit on Row(x). */
  lemma TableRows4(x: bv4)
    requires 4 <= x < 8
    ensures SubBytes(Row(x)) == FromLanes(SboxRow(x))
  {
  }

  /** Rows 4.. of the inverse S-box. */
  lemma InvTableRows4(x: bv4)
    requires 4 <= x < 8
    ensures InvSubBytes(Row(x)) == FromLanes(InvSboxRow(x))
  {
  }

  lemma InverseRows4(x: bv4)
    requires 4 <= x < 8
    ensures InvSubBytes(SubBytes(Row(x))) == Row(x) && SubBytes(InvSubBytes(Row(x))) == Row(x)
  {
  }

  /** Rows 8.. of the S-box, by evaluating the circuit on Row(x). */
  lemma TableRows8(x: bv4)
    requires 8 <= x < 12
    ensures SubBytes(Row(x)) == FromLanes(SboxRow(x))
  {
  }

  /** Rows 8.. of the inverse S-box. */
  lemma InvTableRows8(x: bv4)
    requires 8 <= x < 12
    ensures InvSubBytes(Row(x)) == FromLanes(InvSboxRow(x))
  {
  }

  lemma InverseRows8(x: bv4)
    requires 8 <= x < 12
    ensures InvSubBytes(SubBytes(Row(x))) == Row(x) && SubBytes(InvSubBytes(Row(x))) == Row(x)
  {
  }

  /** Rows 12.. of the S-box, by evaluating the circuit on Row(x). */
  lemma TableRows12(x: bv4)
    requires 12 <= x
    ensures SubBytes(Row(x)) == FromLanes(SboxRow(x))
  {
  }

  /** Rows 12.. of the inverse S-box. */
  lemma InvTableRows12(x: bv4)
    requires 12 <= x
    ensures InvSubBytes(Row(x)) == FromLanes(InvSboxRow(x))
  {
  }

  lemma InverseRows12(x: bv4)
    requires 12 <= x
    ensures InvSubBytes(SubBytes(Row(x))) == Row(x) && SubBytes(InvSubBytes(Row(x))) == Row(x)
  {
  }

  lemma SboxQuarter0(x: bv4, y: bv4)
    requires x < 4
    ensures var b := ((x as bv8) << 4) | (y as bv8);
      && Sbox(b) == SboxRow(x)[y] && InvSbox(b) == InvSboxRow(x)[y]
      && InvSbox(Sbox(b)) == b && Sbox(InvSbox(b)) == b
  {
    TableRows0(x);
    InvTableRows0(x);
    InverseRows0(x);
    RowLanes(x, y);
    SubBytesLanes(Row(x), y);
    SubBytesLanes(SubBytes(Row(x)), y);
    SubBytesLanes(InvSubBytes(Row(x)), y);
    FromLanesLanes(SboxRow(x), y);
    FromLanesLanes(InvSboxRow(x), y);
  }

  lemma SboxQuarter4(x: bv4, y: bv4)
    requires 4 <= x < 8
    ensures var b := ((x as bv8) << 4) | (y as bv8);
      && Sbox(b) == SboxRow(x)[y] && InvSbox(b) == InvSboxRow(x)[y]
      && InvSbox(Sbox(b)) == b && Sbox(InvSbox(b)) == b
  {
    TableRows4(x);
    InvTableRows4(x);
    InverseRows4(x);
    RowLanes(x, y);
    SubBytesLanes(Row(x), y);
    SubBytesLanes(SubBytes(Row(x)), y);
    SubBytesLanes(InvSubBytes(Row(x)), y);
    FromLanesLanes(SboxRow(x), y);
    FromLanesLanes(InvSboxRow(x), y);
  }

  lemma SboxQuarter8(x: bv4, y: bv4)
    requires 8 <= x < 12
    ensures var b := ((x as bv8) << 4) | (y as bv8);
      && Sbox(b) == SboxRow(x)[y] && InvSbox(b) == InvSboxRow(x)[y]
      && InvSbox(Sbox(b)) == b && Sbox(InvSbox(b)) == b
  {
    TableRows8(x);
    InvTableRows8(x);
    InverseRows8(x);
    RowLanes(x, y);
    SubBytesLanes(Row(x), y);
    SubBytesLanes(SubBytes(Row(x)), y);
    SubBytesLanes(InvSubBytes(Row(x)), y);
    FromLanesLanes(SboxRow(x), y);
    FromLanesLanes(InvSboxRow(x), y);
  }

  lemma SboxQuarter12(x: bv4, y: bv4)
    requires 12 <= x
    ensures var b := ((x as bv8) << 4) | (y as bv8);
      && Sbox(b) == SboxRow(x)[y] && InvSbox(b) == InvSboxRow(x)[y]
      && InvSbox(Sbox(b)) == b && Sbox(InvSbox(b)) == b
  {
    TableRows12(x);
    InvTableRows12(x);
    InverseRows12(x);
    RowLanes(x, y);
    SubBytesLanes(Row(x), y);
    SubBytesLanes(SubBytes(Row(x)), y);
    SubBytesLanes(InvSubBytes(Row(x)), y);
    FromLanesLanes(SboxRow(x), y);
    FromLanesLanes(InvSboxRow(x), y);
  }

  /**
   * The one-byte S-box is the S-box of FIPS 197 and the inverse S-box its
   * inverse table: the byte 16 * x + y is substituted by the entry in row x,
   * column y.  Each undoes the other.
   */
  lemma SboxMatchesTable(x: bv4, y: bv4)
    ensures var b := ((x as bv8) << 4) | (y as bv8);
      && Sbox(b) == SboxRow(x)[y] && InvSbox(b) == InvSboxRow(x)[y]
      && InvSbox(Sbox(b)) == b && Sbox(InvSbox(b)) == b
  {
    if x < 4 {
      SboxQuarter0(x, y);
    } else if x < 8 {
      SboxQuarter4(x, y);
    } else if x < 12 {
      SboxQuarter8(x, y);
    } else {
      SboxQuarter12(x, y);
    }
  }

  /** The inverse S-box undoes the S-box on every byte, and the other way round. */
  lemma SboxInverse(b: bv8)
    ensures InvSbox(Sbox(b)) == b && Sbox(InvSbox(b)) == b
  {
    var x, y := (b >> 4) as bv4, (b & 15) as bv4;
    assert b == ((x as bv8) << 4) | (y as bv8);
    SboxMatchesTable(x, y);
  }

  /** InvSubBytes undoes SubBytes on every state, and the other way round. */
  lemma SubBytesInverse(s: State)
    ensures InvSubBytes(SubBytes(s)) == s
    ensures SubBytes(InvSubBytes(s)) == s
  {
    forall p: Lane
      ensures LaneByte(InvSubBytes(SubBytes(s)), p) == LaneByte(s, p)
      ensures LaneByte(SubBytes(InvSubBytes(s)), p) == LaneByte(s, p)
    {
      SubBytesLanes(s, p);
      SubBytesLanes(SubBytes(s), p);
      SubBytesLanes(InvSubBytes(s), p);
      SboxInverse(LaneByte(s, p));
    }
    LanesDetermineState(InvSubBytes(SubBytes(s)), s);
    LanesDetermineState(SubBytes(InvSubBytes(s)), s);
  }
}
