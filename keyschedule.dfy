/**
 * The bitsliced key schedule (aes__key_schedule) and its helpers: RotWord,
 * get_column, multiply_by_x and key_setup_round_core.
 *
 * Round key j is a bitsliced state; word 4j + c of the expansion is its
 * column c, that is bytes 4c to 4c + 3 of the block it holds.  The schedule
 * keeps the word it is working on in column 0 of a scratch state (first_col)
 * and the round constant in column 0 of another (rcon).  KeySchedule is proved
 * to leave in round key j the packed round key j of FIPS 197, section 5.2.
 */
module KeySetup {
  import opened Bitslice
  import opened SubBytesCircuit
  import opened Rotations
  import opened Packing
  import opened BlockCipher
  import opened KeyExpansion
  import opened Linearity

  /** The lane of column c in row 0. */
  const ColumnTable: seq<Lane> := [0, 1, 2, 3]

  function ColumnLane(c: nat): (y: Lane)
    requires c < 4
    ensures y < 4
  {
    ColumnTable[c]
  }

  /** The four bytes of column c of a state, top row first: an AES word. */
  function ColumnWord(s: State, c: nat): (w: seq<bv8>)
    requires c < 4
    ensures |w| == 4
  {
    [ColumnByte(s, c, 0), ColumnByte(s, c, 1), ColumnByte(s, c, 2), ColumnByte(s, c, 3)]
  }

  /** The byte in row r, column c of a state: byte 4c + r of the block it holds. */
  function ColumnByte(s: State, c: nat, r: nat): bv8
    requires c < 4 && r < 4
  {
    Unpack(s)[4 * c + r]
  }

  // ---------------------------------------------------------------- lanes of the columns

  /** Lane y is in column y & 3 and row y >> 2; byte k of a block is in column k / 4 and row k % 4. */
  lemma LaneOfByteParts(k: nat)
    requires k < 16
    ensures LaneOfByte(k) & 3 == ColumnLane(k / 4)
    ensures LaneOfByte(k) & 12 == LaneOfByte(k % 4)
  {
    assert k == 0 || k == 1 || k == 2 || k == 3 || k == 4 || k == 5 || k == 6 || k == 7 ||
           k == 8 || k == 9 || k == 10 || k == 11 || k == 12 || k == 13 || k == 14 || k == 15;
  }

  lemma LaneOfColumnRow(c: nat, r: nat)
    requires c < 4 && r < 4
    ensures LaneOfByte(r) | ColumnLane(c) == LaneOfByte(4 * c + r)
    ensures LaneOfByte(r) & 3 == 0
  {
    assert c == 0 || c == 1 || c == 2 || c == 3;
    assert r == 0 || r == 1 || r == 2 || r == 3;
  }

  lemma ColumnLaneInjective(c: nat, d: nat)
    requires c < 4 && d < 4
    ensures ColumnLane(c) == ColumnLane(d) <==> c == d
  {
  }

  lemma GatherOr(u: Slices<bv1>, v: Slices<bv1>)
    ensures Gather(Slices(u.s0 | v.s0, u.s1 | v.s1, u.s2 | v.s2, u.s3 | v.s3,
                          u.s4 | v.s4, u.s5 | v.s5, u.s6 | v.s6, u.s7 | v.s7)) == Gather(u) | Gather(v)
  {
  }

  // ---------------------------------------------------------------- RotWord

  /** aesbs_RotWord: every slice rotated left by 12 bits, so lane y receives lane y + 4, the lane one row down. */
  function RotWord(s: State): State
  {
    Slices(Rotl16(s.s0, 12), Rotl16(s.s1, 12), Rotl16(s.s2, 12), Rotl16(s.s3, 12),
           Rotl16(s.s4, 12), Rotl16(s.s5, 12), Rotl16(s.s6, 12), Rotl16(s.s7, 12))
  }

  lemma RotWordLanes(s: State, y: Lane)
    ensures LaneByte(RotWord(s), y) == LaneByte(s, y + 4)
  {
    Rotate16Left(s.s0, 12, y + 4);
    Rotate16Left(s.s1, 12, y + 4);
    Rotate16Left(s.s2, 12, y + 4);
    Rotate16Left(s.s3, 12, y + 4);
    Rotate16Left(s.s4, 12, y + 4);
    Rotate16Left(s.s5, 12, y + 4);
    Rotate16Left(s.s6, 12, y + 4);
    Rotate16Left(s.s7, 12, y + 4);
    LaneByteBits(RotWord(s), y);
    LaneByteBits(s, y + 4);
  }

  lemma RotWordRow(s: State, r: nat, below: nat)
    requires r < 4 && below == (r + 1) % 4
    ensures ColumnByte(RotWord(s), 0, r) == ColumnByte(s, 0, below)
  {
    RotWordLanes(s, LaneOfByte(r));
    assert LaneOfByte(r) + 4 == LaneOfByte(below) by {
      assert r == 0 || r == 1 || r == 2 || r == 3;
    }
  }

  /** On column 0, aesbs_RotWord is the RotWord of FIPS 197: row r receives row r + 1, row 3 receives row 0. */
  lemma RotWordColumn(s: State)
    ensures ColumnWord(RotWord(s), 0) == RotWordBytes(ColumnWord(s, 0))
  {
    RotWordRow(s, 0, 1);
    RotWordRow(s, 1, 2);
    RotWordRow(s, 2, 3);
    RotWordRow(s, 3, 0);
  }

  // ---------------------------------------------------------------- get_column

  function ColumnSlice(x: bv16, column: Lane): bv16
  {
    (x >> column) & 0x1111
  }

  /** aes__get_column: column `column` moved to column 0, every other lane cleared. */
  function GetColumn(src: State, column: Lane): State
  {
    Slices(ColumnSlice(src.s0, column), ColumnSlice(src.s1, column), ColumnSlice(src.s2, column),
           ColumnSlice(src.s3, column), ColumnSlice(src.s4, column), ColumnSlice(src.s5, column),
           ColumnSlice(src.s6, column), ColumnSlice(src.s7, column))
  }

  lemma ColumnSliceBit(x: bv16, column: Lane, y: Lane)
    requires column < 4
    ensures Bit(ColumnSlice(x, column), y) == if y & 3 == 0 then Bit(x, y | column) else 0
  {
  }

  lemma GetColumnLanes(src: State, column: Lane, y: Lane)
    requires column < 4
    ensures LaneByte(GetColumn(src, column), y) == if y & 3 == 0 then LaneByte(src, y | column) else 0
  {
    ColumnSliceBit(src.s0, column, y);
    ColumnSliceBit(src.s1, column, y);
    ColumnSliceBit(src.s2, column, y);
    ColumnSliceBit(src.s3, column, y);
    ColumnSliceBit(src.s4, column, y);
    ColumnSliceBit(src.s5, column, y);
    ColumnSliceBit(src.s6, column, y);
    ColumnSliceBit(src.s7, column, y);
    LaneByteBits(GetColumn(src, column), y);
    LaneByteBits(src, y | column);
  }

  /** get_column(src, c) holds column c of src in column 0, row by row, ... */
  lemma GetColumnRow(src: State, c: nat, r: nat)
    requires c < 4 && r < 4
    ensures ColumnByte(GetColumn(src, ColumnLane(c)), 0, r) == ColumnByte(src, c, r)
  {
    GetColumnLanes(src, ColumnLane(c), LaneOfByte(r));
    LaneOfColumnRow(c, r);
  }

  /** ... and zero in the other twelve bytes of the block. */
  lemma GetColumnElsewhere(src: State, c: nat, k: nat)
    requires c < 4 && 4 <= k < 16
    ensures Unpack(GetColumn(src, ColumnLane(c)))[k] == 0
  {
    GetColumnLanes(src, ColumnLane(c), LaneOfByte(k));
    LaneOfByteParts(k);
  }

  lemma GetColumnColumn(src: State, c: nat)
    requires c < 4
    ensures ColumnWord(GetColumn(src, ColumnLane(c)), 0) == ColumnWord(src, c)
  {
    GetColumnRow(src, c, 0);
    GetColumnRow(src, c, 1);
    GetColumnRow(src, c, 2);
    GetColumnRow(src, c, 3);
  }

  // ---------------------------------------------------------------- key_setup_round_core

  function OrColumnSlice(x: bv16, resultant: bv16, column: Lane): bv16
  {
    x | ((resultant & 0x1111) << column)
  }

  /** The round key with column 0 of resultant ORed into column `column`. */
  function OrColumn(roundKey: State, resultant: State, column: Lane): State
  {
    Slices(OrColumnSlice(roundKey.s0, resultant.s0, column), OrColumnSlice(roundKey.s1, resultant.s1, column),
           OrColumnSlice(roundKey.s2, resultant.s2, column), OrColumnSlice(roundKey.s3, resultant.s3, column),
           OrColumnSlice(roundKey.s4, resultant.s4, column), OrColumnSlice(roundKey.s5, resultant.s5, column),
           OrColumnSlice(roundKey.s6, resultant.s6, column), OrColumnSlice(roundKey.s7, resultant.s7, column))
  }

  lemma OrColumnSliceBit(x: bv16, z: bv16, column: Lane, y: Lane)
    requires column < 4
    ensures Bit(OrColumnSlice(x, z, column), y) == if y & 3 == column then Bit(x, y) | Bit(z, y & 12) else Bit(x, y)
  {
  }

  lemma OrColumnLanes(roundKey: State, resultant: State, column: Lane, y: Lane)
    requires column < 4
    ensures LaneByte(OrColumn(roundKey, resultant, column), y)
            == if y & 3 == column then LaneByte(roundKey, y) | LaneByte(resultant, y & 12) else LaneByte(roundKey, y)
  {
    OrColumnSliceBit(roundKey.s0, resultant.s0, column, y);
    OrColumnSliceBit(roundKey.s1, resultant.s1, column, y);
    OrColumnSliceBit(roundKey.s2, resultant.s2, column, y);
    OrColumnSliceBit(roundKey.s3, resultant.s3, column, y);
    OrColumnSliceBit(roundKey.s4, resultant.s4, column, y);
    OrColumnSliceBit(roundKey.s5, resultant.s5, column, y);
    OrColumnSliceBit(roundKey.s6, resultant.s6, column, y);
    OrColumnSliceBit(roundKey.s7, resultant.s7, column, y);
    LaneByteBits(OrColumn(roundKey, resultant, column), y);
    LaneByteBits(roundKey, y);
    LaneByteBits(resultant, y & 12);
    GatherOr(Slices(Bit(roundKey.s0, y), Bit(roundKey.s1, y), Bit(roundKey.s2, y), Bit(roundKey.s3, y),
                    Bit(roundKey.s4, y), Bit(roundKey.s5, y), Bit(roundKey.s6, y), Bit(roundKey.s7, y)),
             Slices(Bit(resultant.s0, y & 12), Bit(resultant.s1, y & 12), Bit(resultant.s2, y & 12),
                    Bit(resultant.s3, y & 12), Bit(resultant.s4, y & 12), Bit(resultant.s5, y & 12),
                    Bit(resultant.s6, y & 12), Bit(resultant.s7, y & 12)));
  }

  /** ORing a resultant into column c changes only the four bytes of column c, each ORed with a byte of column 0 of the resultant. */
  lemma OrColumnBytes(roundKey: State, resultant: State, c: nat, k: nat)
    requires c < 4 && k < 16
    ensures Unpack(OrColumn(roundKey, resultant, ColumnLane(c)))[k]
            == if k / 4 == c then Unpack(roundKey)[k] | Unpack(resultant)[k % 4] else Unpack(roundKey)[k]
  {
    OrColumnLanes(roundKey, resultant, ColumnLane(c), LaneOfByte(k));
    LaneOfByteParts(k);
    ColumnLaneInjective(k / 4, c);
    assert Unpack(resultant)[k % 4] == LaneByte(resultant, LaneOfByte(k % 4));
  }

  /**
   * aes__key_setup_round_core: the resultant column is first_col XOR column
   * num_last_expanded_key of last_expanded_key (in column 0), and column 0 of
   * the resultant is ORed into column num_resultant_col of the round key.
   */
  method KeySetupRoundCore(roundKeys: array<State>, index: nat, numResultantCol: Lane, firstCol: State,
                           lastExpandedKey: State, numLastExpandedKey: Lane) returns (resultantCol: State)
    requires index < roundKeys.Length
    modifies roundKeys
    ensures resultantCol == XorState(firstCol, GetColumn(lastExpandedKey, numLastExpandedKey))
    ensures roundKeys[..] == old(roundKeys[..])[index := OrColumn(old(roundKeys[index]), resultantCol, numResultantCol)]
  {
    resultantCol := XorState(firstCol, GetColumn(lastExpandedKey, numLastExpandedKey));
    roundKeys[index] := OrColumn(roundKeys[index], resultantCol, numResultantCol);
  }

  /** Each byte of the exclusive or of two states is the exclusive or of their bytes. */
  lemma XorRow(a: State, b: State, r: nat)
    requires r < 4
    ensures ColumnByte(XorState(a, b), 0, r) == ColumnByte(a, 0, r) ^ ColumnByte(b, 0, r)
  {
    AddRoundKeyLanes(a, b, LaneOfByte(r));
  }

  /** Column 0 of the resultant is first_col's column 0 XOR column c of the last expanded key. */
  lemma ResultantColumn(firstCol: State, last: State, c: nat)
    requires c < 4
    ensures ColumnWord(XorState(firstCol, GetColumn(last, ColumnLane(c))), 0) == XorWord(ColumnWord(firstCol, 0), ColumnWord(last, c))
  {
    XorColumn(firstCol, GetColumn(last, ColumnLane(c)));
    GetColumnColumn(last, c);
  }

  // ---------------------------------------------------------------- multiply_by_x

  /** aes__multiply_by_x: every lane multiplied by x in GF(2^8), bit 7 folded back through x^4 + x^3 + x + 1. */
  function MultiplyByX(s: State): State
  {
    Slices(s.s7, s.s0 ^ s.s7, s.s1, s.s2 ^ s.s7, s.s3 ^ s.s7, s.s4, s.s5, s.s6)
  }

  /** The same shuffle of eight slices, over any exclusive or. */
  function MultiplyByXG<T>(xor: (T, T) -> T, s: Slices<T>): Slices<T>
  {
    Slices(s.s7, xor(s.s0, s.s7), s.s1, xor(s.s2, s.s7), xor(s.s3, s.s7), s.s4, s.s5, s.s6)
  }

  lemma MapMultiplyByXG<P(!new), U>(h: P -> U, xorP: (P, P) -> P, xorU: (U, U) -> U, s: Slices<P>)
    requires forall p, q :: h(xorP(p, q)) == xorU(h(p), h(q))
    ensures Map(h, MultiplyByXG(xorP, s)) == MultiplyByXG(xorU, Map(h, s))
  {
  }

  /** On the bits of one byte the shuffle is xtime. */
  lemma XTimeBits(u: Slices<bv1>)
    ensures Gather(MultiplyByXG(BitXorOf, u)) == XTime(Gather(u))
  {
  }

  /** multiply_by_x is xtime (FIPS 197, 4.2.1) in every lane. */
  lemma MultiplyByXLanes(s: State, y: Lane)
    ensures LaneByte(MultiplyByX(s), y) == XTime(LaneByte(s, y))
  {
    assert MultiplyByX(s) == MultiplyByXG(BvXor, s);
    LaneOfXor(y);
    MapMultiplyByXG(LaneOf(y), BvXor, BitXorOf, s);
    XTimeBits(Map(LaneOf(y), s));
  }

  lemma MultiplyByXRow(s: State, r: nat)
    requires r < 4
    ensures ColumnByte(MultiplyByX(s), 0, r) == XTime(ColumnByte(s, 0, r))
  {
    MultiplyByXLanes(s, LaneOfByte(r));
  }

  /** The rcon state steps through the round constants: Rcon[j] in column 0 becomes Rcon[j + 1]. */
  lemma RconStep(rcon: State, j: nat)
    requires 1 <= j && ColumnWord(rcon, 0) == [Rcon(j), 0, 0, 0]
    ensures ColumnWord(MultiplyByX(rcon), 0) == [Rcon(j + 1), 0, 0, 0]
  {
    MultiplyByXRow(rcon, 0);
    MultiplyByXRow(rcon, 1);
    MultiplyByXRow(rcon, 2);
    MultiplyByXRow(rcon, 3);
  }

  // ---------------------------------------------------------------- column 0 of first_col

  lemma SubBytesRow(s: State, r: nat)
    requires r < 4
    ensures ColumnByte(SubBytes(s), 0, r) == Sbox(ColumnByte(s, 0, r))
  {
    SubBytesLanes(s, LaneOfByte(r));
  }

  lemma SubBytesColumn(s: State)
    ensures ColumnWord(SubBytes(s), 0) == SubWord(ColumnWord(s, 0))
  {
    SubBytesRow(s, 0);
    SubBytesRow(s, 1);
    SubBytesRow(s, 2);
    SubBytesRow(s, 3);
    SubWordIsSbox(ColumnWord(s, 0));
  }

  lemma XorColumn(a: State, b: State)
    ensures ColumnWord(XorState(a, b), 0) == XorWord(ColumnWord(a, 0), ColumnWord(b, 0))
  {
    XorRow(a, b, 0);
    XorRow(a, b, 1);
    XorRow(a, b, 2);
    XorRow(a, b, 3);
  }

  lemma XorWordCommutes(a: seq<bv8>, b: seq<bv8>)
    requires |a| == 4 && |b| == 4
    ensures XorWord(a, b) == XorWord(b, a)
  {
  }

  // ---------------------------------------------------------------- the schedule

  /** Byte r of word w of e, and zero past the end of e. */
  ghost function WordByte(e: seq<seq<bv8>>, w: nat, r: nat): bv8
  {
    if w < |e| && r < |e[w]| then e[w][r] else 0
  }

  /** What row r, column c of round key j holds once the first n bytes of e are in place. */
  ghost function Expected(e: seq<seq<bv8>>, n: nat, j: nat, c: nat, r: nat): bv8
  {
    if 16 * j + 4 * c + r < n then WordByte(e, 4 * j + c, r) else 0
  }

  /** Row r, column c of block j of u, and zero outside u. */
  ghost function BlockByte(u: seq<seq<bv8>>, j: nat, c: nat, r: nat): bv8
  {
    if j < |u| && 4 * c + r < |u[j]| then u[j][4 * c + r] else 0
  }

  /** The blocks held by round keys 0 to nr. */
  function Blocks(roundKeys: seq<State>, nr: nat): (u: seq<seq<bv8>>)
    requires nr < |roundKeys|
    ensures |u| == nr + 1 && forall j :: 0 <= j <= nr ==> u[j] == Unpack(roundKeys[j])
  {
    seq(nr + 1, j requires 0 <= j <= nr => Unpack(roundKeys[j]))
  }

  /**
   * Blocks 0 to nr hold the first n bytes of the words e, word w in column
   * w % 4 (bytes 4(w % 4) to 4(w % 4) + 3) of block w / 4, and zero in every
   * byte after them.
   */
  ghost predicate Expanded(u: seq<seq<bv8>>, e: seq<seq<bv8>>, nr: nat, n: nat)
  {
    && |u| == nr + 1
    && (forall j :: 0 <= j <= nr ==> |u[j]| == 16)
    && forall j, c, r :: 0 <= j <= nr && 0 <= c < 4 && 0 <= r < 4 ==>
      BlockByte(u, j, c, r) == Expected(e, n, j, c, r)
  }

  lemma ClearedExpanded(roundKeys: seq<State>, e: seq<seq<bv8>>, nr: nat)
    requires nr < |roundKeys|
    requires forall j :: 0 <= j <= nr ==> roundKeys[j] == Zero
    ensures Expanded(Blocks(roundKeys, nr), e, nr, 0)
  {
    forall j, c, r | 0 <= j <= nr && 0 <= c < 4 && 0 <= r < 4
      ensures BlockByte(Blocks(roundKeys, nr), j, c, r) == 0
    {
      UnpackZero(4 * c + r);
    }
  }

  /** Byte 4i + j of the expansion is at row j, column i % 4 of round key i / 4, and nowhere else. */
  lemma PositionOf(i: nat, j: nat, jj: nat, c: nat, r: nat)
    requires j < 4 && c < 4 && r < 4
    ensures 16 * jj + 4 * c + r == 4 * i + j <==> jj == i / 4 && c == i % 4 && r == j
  {
    assert 4 * i == 16 * (i / 4) + 4 * (i % 4);
  }

  /** Storing byte b = e[i][j] at row j, column i % 4 of block i / 4 extends the expanded prefix by one byte. */
  lemma LoadBytes(u: seq<seq<bv8>>, v: seq<bv8>, e: seq<seq<bv8>>, nr: nat, i: nat, j: nat, b: bv8)
    requires i / 4 <= nr && j < 4 && i < |e| && j < |e[i]| && e[i][j] == b
    requires Expanded(u, e, nr, 4 * i + j)
    requires |v| == 16 && forall k :: 0 <= k < 16 ==> v[k] == if k == 4 * (i % 4) + j then u[i / 4][k] | b else u[i / 4][k]
    ensures Expanded(u[i / 4 := v], e, nr, 4 * i + j + 1)
  {
    var t := u[i / 4 := v];
    forall jj, c, r | 0 <= jj <= nr && 0 <= c < 4 && 0 <= r < 4
      ensures BlockByte(t, jj, c, r) == Expected(e, 4 * i + j + 1, jj, c, r)
    {
      PositionOf(i, j, jj, c, r);
      assert BlockByte(u, jj, c, r) == Expected(e, 4 * i + j, jj, c, r);
      if jj == i / 4 && c == i % 4 && r == j {
        assert 4 * jj + c == i;
        assert BlockByte(t, jj, c, r) == v[4 * c + r] == 0 | b;
      } else if jj == i / 4 {
        assert BlockByte(t, jj, c, r) == v[4 * c + r] == BlockByte(u, jj, c, r);
      } else {
        assert BlockByte(t, jj, c, r) == BlockByte(u, jj, c, r);
      }
    }
  }

  /** ORing word e[i] into column i % 4 of block i / 4 extends the expanded prefix by one word. */
  lemma ExpandBytes(u: seq<seq<bv8>>, v: seq<bv8>, e: seq<seq<bv8>>, nr: nat, i: nat, j: nat, col: nat, word: seq<bv8>)
    requires i == 4 * j + col && col < 4 && j <= nr && i < |e| && e[i] == word && |word| == 4
    requires Expanded(u, e, nr, 4 * i)
    requires |v| == 16 && forall k :: 0 <= k < 16 ==> v[k] == if k / 4 == col then u[j][k] | word[k % 4] else u[j][k]
    ensures Expanded(u[j := v], e, nr, 4 * i + 4)
  {
    var t := u[j := v];
    forall jj, c, r | 0 <= jj <= nr && 0 <= c < 4 && 0 <= r < 4
      ensures BlockByte(t, jj, c, r) == Expected(e, 4 * i + 4, jj, c, r)
    {
      var k := 4 * c + r;
      assert k / 4 == c && k % 4 == r;
      assert BlockByte(u, jj, c, r) == Expected(e, 4 * i, jj, c, r);
      if jj == j && c == col {
        assert BlockByte(t, jj, c, r) == v[k] == 0 | word[r];
      } else if jj == j {
        assert BlockByte(t, jj, c, r) == v[k] == BlockByte(u, jj, c, r);
      } else {
        assert BlockByte(t, jj, c, r) == BlockByte(u, jj, c, r);
      }
    }
  }

  /** Storing key byte b at row j, column i % 4 of round key i / 4 extends the expanded prefix by one byte. */
  lemma LoadStep(roundKeys: seq<State>, e: seq<seq<bv8>>, nr: nat, i: nat, j: nat, b: bv8)
    requires nr < |roundKeys| && i / 4 <= nr && j < 4 && i < |e| && j < |e[i]| && e[i][j] == b
    requires Expanded(Blocks(roundKeys, nr), e, nr, 4 * i + j)
    ensures Expanded(Blocks(roundKeys[i / 4 := StoreByte(roundKeys[i / 4], b, j, i % 4)], nr), e, nr, 4 * i + j + 1)
  {
    var s := StoreByte(roundKeys[i / 4], b, j, i % 4);
    var u := Blocks(roundKeys, nr);
    forall k | 0 <= k < 16
      ensures Unpack(s)[k] == if k == 4 * (i % 4) + j then u[i / 4][k] | b else u[i / 4][k]
    {
      StoreByteBytes(roundKeys[i / 4], b, j, i % 4, k);
    }
    LoadBytes(u, Unpack(s), e, nr, i, j, b);
    assert Blocks(roundKeys[i / 4 := s], nr) == u[i / 4 := Unpack(s)];
  }

  /**
   * With the transformed word w[i - 1] in column 0 of temp, the resultant of
   * key_setup_round_core holds word w[i] in column 0.
   */
  lemma NextWord(roundKeys: seq<State>, e: seq<seq<bv8>>, nr: nat, nk: nat, i: nat,
                 temp: State, last: State, resultant: State)
    requires nr < |roundKeys| && 1 <= nk <= i < |e| && i / 4 <= nr
    requires forall w :: 0 <= w < |e| ==> |e[w]| == 4
    requires Expanded(Blocks(roundKeys, nr), e, nr, 4 * i)
    requires Follows(e, nk, i) && ColumnWord(temp, 0) == Transform(e[i - 1], nk, i)
    requires last == roundKeys[(i - nk) / 4]
    requires resultant == XorState(temp, GetColumn(last, ColumnLane((i - nk) % 4)))
    ensures ColumnWord(resultant, 0) == e[i]
  {
    ColumnOfWord(roundKeys, e, nr, 4 * i, i - nk);
    XorColumn(temp, GetColumn(last, ColumnLane((i - nk) % 4)));
    XorWordCommutes(Transform(e[i - 1], nk, i), e[i - nk]);
  }

  /** get_column brings word w of an expanded prefix from round key w / 4 into column 0. */
  lemma ColumnOfWord(roundKeys: seq<State>, e: seq<seq<bv8>>, nr: nat, n: nat, w: nat)
    requires nr < |roundKeys| && w < |e| && |e[w]| == 4
    requires Expanded(Blocks(roundKeys, nr), e, nr, n) && 4 * w + 4 <= n && w / 4 <= nr
    ensures ColumnWord(GetColumn(roundKeys[w / 4], ColumnLane(w % 4)), 0) == e[w]
  {
    ExpandedWordAt(roundKeys, e, nr, n, w);
    GetColumnColumn(roundKeys[w / 4], w % 4);
  }

  /** ORing a resultant holding word e[i] into column i % 4 of round key i / 4 extends the expanded prefix by one word. */
  lemma ExpandStep(before: seq<State>, after: seq<State>, e: seq<seq<bv8>>, nr: nat, i: nat, resultant: State, n: nat)
    requires nr < |before| && i / 4 <= nr && i < |e| && n == 4 * (i + 1)
    requires Expanded(Blocks(before, nr), e, nr, 4 * i)
    requires ColumnWord(resultant, 0) == e[i]
    requires after == before[i / 4 := OrColumn(before[i / 4], resultant, ColumnLane(i % 4))]
    ensures Expanded(Blocks(after, nr), e, nr, n)
  {
    ExpandColumn(before, after, e, nr, i, i / 4, i % 4, resultant, n);
  }

  /** ExpandStep for word i = 4 * j + col, held in column col of round key j. */
  lemma ExpandColumn(before: seq<State>, after: seq<State>, e: seq<seq<bv8>>, nr: nat, i: nat, j: nat, col: nat,
                     resultant: State, n: nat)
    requires nr < |before| && i == 4 * j + col && col < 4 && j <= nr && i < |e| && n == 4 * (i + 1)
    requires Expanded(Blocks(before, nr), e, nr, 4 * i)
    requires ColumnWord(resultant, 0) == e[i]
    requires after == before[j := OrColumn(before[j], resultant, ColumnLane(col))]
    ensures Expanded(Blocks(after, nr), e, nr, n)
  {
    var s := OrColumn(before[j], resultant, ColumnLane(col));
    var u := Blocks(before, nr);
    var word := ColumnWord(resultant, 0);
    forall k | 0 <= k < 16
      ensures Unpack(s)[k] == if k / 4 == col then u[j][k] | word[k % 4] else u[j][k]
    {
      OrColumnBytes(before[j], resultant, col, k);
      assert word[k % 4] == ColumnByte(resultant, 0, k % 4);
    }
    ExpandBytes(u, Unpack(s), e, nr, i, j, col, word);
    assert Blocks(after, nr) == u[j := Unpack(s)];
  }

  /** Word w of an expanded prefix sits in column w % 4 of round key w / 4. */
  lemma ExpandedWordAt(roundKeys: seq<State>, e: seq<seq<bv8>>, nr: nat, n: nat, w: nat)
    requires nr < |roundKeys| && w < |e| && |e[w]| == 4
    requires Expanded(Blocks(roundKeys, nr), e, nr, n) && 4 * w + 4 <= n && w / 4 <= nr
    ensures ColumnWord(roundKeys[w / 4], w % 4) == e[w]
  {
    ExpandedColumnAt(roundKeys, e, nr, n, w, w / 4, w % 4);
  }

  /** ExpandedWordAt for word w = 4 * j + col. */
  lemma ExpandedColumnAt(roundKeys: seq<State>, e: seq<seq<bv8>>, nr: nat, n: nat, w: nat, j: nat, col: nat)
    requires nr < |roundKeys| && w < |e| && |e[w]| == 4 && w == 4 * j + col && col < 4 && j <= nr
    requires Expanded(Blocks(roundKeys, nr), e, nr, n) && 4 * w + 4 <= n
    ensures ColumnWord(roundKeys[j], col) == e[w]
  {
    var u := Blocks(roundKeys, nr);
    forall r | 0 <= r < 4
      ensures ColumnByte(roundKeys[j], col, r) == e[w][r]
    {
      assert BlockByte(u, j, col, r) == Expected(e, n, j, col, r);
    }
  }

  lemma MulLe(x: nat, y: nat, n: nat)
    requires x <= y
    ensures x * n <= y * n
  {
    var d := y - x;
    assert y * n == x * n + d * n;
  }

  /** Division by n is determined by any quotient and remainder below n. */
  lemma DivMod(a: nat, n: nat, q: nat, r: nat)
    requires r < n && a == q * n + r
    ensures a / n == q && a % n == r
  {
    var q0, r0 := a / n, a % n;
    assert a == q0 * n + r0;
    if q0 < q {
      MulLe(q0 + 1, q, n);
      assert false;
    } else if q < q0 {
      MulLe(q + 1, q0, n);
      assert false;
    }
  }

  /** The remainder and quotient by repeated subtraction are those of Euclidean division. */
  lemma {:induction false} RemQuot(i: nat, n: nat)
    requires 1 <= n
    ensures Rem(i, n) == i % n && Quot(i, n) == i / n
    decreases i
  {
    if i < n {
      DivMod(i, n, 0, i);
    } else {
      RemQuot(i - n, n);
      var q, r := Quot(i - n, n), Rem(i - n, n);
      assert (q + 1) * n == q * n + n;
      DivMod(i, n, q + 1, r);
    }
  }

  /** The round constant in use at position pos of the expansion loop: the next one to apply. */
  ghost function RconIndex(pos: nat, nk: nat): (j: nat)
    requires 1 <= nk
    ensures 1 <= j
  {
    if Rem(pos, nk) == 0 then Quot(pos, nk) + 1 else Quot(pos, nk) + 2
  }

  /** Word i = pos + nk is at the same place in its group as pos; the round constant moves on after the start of a group. */
  lemma PosStep(pos: nat, nk: nat, i: nat)
    requires 1 <= nk && i == pos + nk
    ensures pos % nk == Rem(pos, nk) && Rem(i, nk) == Rem(pos, nk) && Quot(i, nk) == Quot(pos, nk) + 1
    ensures RconIndex(pos + 1, nk) == if Rem(pos, nk) == 0 then RconIndex(pos, nk) + 1 else RconIndex(pos, nk)
  {
    RemQuot(pos, nk);
    assert Rem(i, nk) == Rem(pos, nk) && Quot(i, nk) == Quot(pos, nk) + 1;
    RemSucc(pos, nk);
  }

  /**
   * At the start of a group the first column goes through RotWord, SubBytes
   * and round constant j, and the round constant moves on to j + 1.
   */
  lemma GroupStart(firstCol: State, rcon: State, j: nat, next: nat)
    requires 1 <= j && next == j + 1 && ColumnWord(rcon, 0) == [Rcon(j), 0, 0, 0]
    ensures ColumnWord(XorState(SubBytes(RotWord(firstCol)), rcon), 0)
              == XorWord(SubWord(RotWordBytes(ColumnWord(firstCol, 0))), [Rcon(j), 0, 0, 0])
    ensures ColumnWord(MultiplyByX(rcon), 0) == [Rcon(next), 0, 0, 0]
  {
    RotWordColumn(firstCol);
    SubBytesColumn(RotWord(firstCol));
    XorColumn(SubBytes(RotWord(firstCol)), rcon);
    RconStep(rcon, j);
  }

  /** Transform and the round constant's next position, by the test on pos % nk that the loop makes. */
  lemma TransformCases(w: seq<bv8>, pos: nat, nk: nat, i: nat, nextPos: nat)
    requires |w| == 4 && 1 <= nk && i == pos + nk && nextPos == pos + 1
    ensures pos % nk == 0 ==>
              && Transform(w, nk, i) == XorWord(SubWord(RotWordBytes(w)), [Rcon(RconIndex(pos, nk)), 0, 0, 0])
              && RconIndex(nextPos, nk) == RconIndex(pos, nk) + 1
    ensures pos % nk != 0 ==> RconIndex(nextPos, nk) == RconIndex(pos, nk)
    ensures pos % nk != 0 && nk > 6 && pos % nk == 4 ==> Transform(w, nk, i) == SubWord(w)
    ensures pos % nk != 0 && !(nk > 6 && pos % nk == 4) ==> Transform(w, nk, i) == w
  {
    PosStep(pos, nk, i);
  }

  lemma RconFirst()
    ensures ColumnWord(Slices(1, 0, 0, 0, 0, 0, 0, 0), 0) == [Rcon(1), 0, 0, 0]
  {
  }

  /** Round keys holding the whole expanded key hold, packed, its words four by four. */
  lemma ExpandedPacked(roundKeys: seq<State>, e: seq<seq<bv8>>, nr: nat, j: nat, block: seq<bv8>)
    requires nr < |roundKeys| && j <= nr
    requires |e| == 4 * (nr + 1) && forall w :: 0 <= w < |e| ==> |e[w]| == 4
    requires block == e[4 * j] + e[4 * j + 1] + e[4 * j + 2] + e[4 * j + 3]
    requires Expanded(Blocks(roundKeys, nr), e, nr, 16 * (nr + 1))
    ensures roundKeys[j] == Pack(block)
  {
    var u := Blocks(roundKeys, nr);
    forall k | 0 <= k < 16
      ensures Unpack(roundKeys[j])[k] == block[k]
    {
      var c, r := k / 4, k % 4;
      assert k == 4 * c + r;
      assert BlockByte(u, j, c, r) == Expected(e, 16 * (nr + 1), j, c, r) == e[4 * j + c][r];
      ConcatByte(e[4 * j], e[4 * j + 1], e[4 * j + 2], e[4 * j + 3], c, r);
    }
    assert Unpack(roundKeys[j]) == block;
    PackUnpack(roundKeys[j]);
  }

  /**
   * The branch at the head of each step of aes__key_schedule: at the start of
   * a group of nk words first_col goes through RotWord, SubBytes and the
   * round constant, which then moves on; for keys of more than six words it
   * goes through SubBytes alone in the middle of the group.
   */
  method TransformColumn(firstCol: State, rcon: State, pos: nat, nk: nat, ghost i: nat, ghost nextPos: nat)
    returns (temp: State, nextRcon: State)
    requires 1 <= nk && i == pos + nk && nextPos == pos + 1
    requires ColumnWord(rcon, 0) == [Rcon(RconIndex(pos, nk)), 0, 0, 0]
    ensures ColumnWord(temp, 0) == Transform(ColumnWord(firstCol, 0), nk, i)
    ensures ColumnWord(nextRcon, 0) == [Rcon(RconIndex(nextPos, nk)), 0, 0, 0]
  {
    TransformCases(ColumnWord(firstCol, 0), pos, nk, i, nextPos);
    temp, nextRcon := firstCol, rcon;
    if pos % nk == 0 {
      GroupStart(firstCol, rcon, RconIndex(pos, nk), RconIndex(nextPos, nk));
      temp := RotWord(temp);
      temp := SubBytes(temp);
      temp := XorState(temp, rcon);
      nextRcon := MultiplyByX(rcon);
    } else if nk > 6 && pos % nk == 4 {
      SubBytesColumn(temp);
      temp := SubBytes(temp);
    }
  }

  /** The first loop of aes__key_schedule: round keys 0 to nr are cleared, the others are not touched. */
  method ClearRoundKeys(roundKeys: array<State>, nr: nat)
    requires nr < roundKeys.Length
    modifies roundKeys
    ensures forall j :: 0 <= j <= nr ==> roundKeys[j] == Zero
    ensures forall j :: nr < j < roundKeys.Length ==> roundKeys[j] == old(roundKeys[j])
  {
    var i := 0;
    while i < nr + 1
      invariant i <= nr + 1
      invariant forall j :: 0 <= j < i ==> roundKeys[j] == Zero
      invariant forall j :: nr < j < roundKeys.Length ==> roundKeys[j] == old(roundKeys[j])
    {
      roundKeys[i] := Zero;
      i := i + 1;
    }
  }

  /**
   * The second loop of aes__key_schedule: byte j of key word i goes to row j
   * of column i % 4 of round key i / 4, so that the round keys hold the
   * first nk words of the expansion.
   */
  method LoadKey(roundKeys: array<State>, key: seq<bv8>, nk: nat, nr: nat, ghost e: seq<seq<bv8>>)
    requires 1 <= nk <= 4 * (nr + 1) && |key| == 4 * nk && nr < roundKeys.Length
    requires forall i :: 0 <= i < nk ==> KeyWord(e, key, i)
    requires Expanded(Blocks(roundKeys[..], nr), e, nr, 0)
    modifies roundKeys
    ensures Expanded(Blocks(roundKeys[..], nr), e, nr, 4 * nk)
    ensures forall j :: nr < j < roundKeys.Length ==> roundKeys[j] == old(roundKeys[j])
  {
    var i := 0;
    while i < nk
      invariant i <= nk
      invariant Expanded(Blocks(roundKeys[..], nr), e, nr, 4 * i)
      invariant forall j :: nr < j < roundKeys.Length ==> roundKeys[j] == old(roundKeys[j])
    {
      var j := 0;
      assert KeyWord(e, key, i);
      while j < 4
        invariant j <= 4
        invariant Expanded(Blocks(roundKeys[..], nr), e, nr, 4 * i + j)
        invariant forall j :: nr < j < roundKeys.Length ==> roundKeys[j] == old(roundKeys[j])
      {
        LoadStep(roundKeys[..], e, nr, i, j, key[4 * i + j]);
        roundKeys[i / 4] := StoreByte(roundKeys[i / 4], key[4 * i + j], j, i % 4);
        j := j + 1;
      }
      i := i + 1;
    }
  }

  /**
   * The state of the third loop of aes__key_schedule before word i: the
   * round keys hold the first i words of e, first_col holds word i - 1 and
   * rcon the round constant still to apply.
   */
  ghost predicate Scheduling(roundKeys: seq<State>, e: seq<seq<bv8>>, nk: nat, nr: nat, i: nat, pos: nat,
                             firstCol: State, rcon: State)
  {
    && 1 <= nk <= i <= 4 * (nr + 1) && pos == i - nk && nr < |roundKeys|
    && |e| == 4 * (nr + 1) && (forall w :: 0 <= w < |e| ==> |e[w]| == 4)
    && Expanded(Blocks(roundKeys, nr), e, nr, 4 * i)
    && ColumnWord(firstCol, 0) == e[i - 1]
    && ColumnWord(rcon, 0) == [Rcon(RconIndex(pos, nk)), 0, 0, 0]
  }

  /**
   * One step of the third loop, on values: with first_col turned into temp
   * and the round constant moved on, the resultant ORed into round key i / 4
   * extends the expanded prefix by word i, which the resultant holds.
   */
  lemma SchedulingStep(before: seq<State>, after: seq<State>, e: seq<seq<bv8>>, nk: nat, nr: nat, i: nat,
                       pos: nat, firstCol: State, rcon: State, temp: State, last: State,
                       nextI: nat, nextPos: nat, nextCol: State, nextRcon: State)
    requires Scheduling(before, e, nk, nr, i, pos, firstCol, rcon)
    requires i < 4 * (nr + 1) && Follows(e, nk, i) && nextI == i + 1 && nextPos == pos + 1
    requires ColumnWord(temp, 0) == Transform(ColumnWord(firstCol, 0), nk, i)
    requires ColumnWord(nextRcon, 0) == [Rcon(RconIndex(nextPos, nk)), 0, 0, 0]
    requires last == before[(i - nk) / 4]
    requires nextCol == XorState(temp, GetColumn(last, ColumnLane((i - nk) % 4)))
    requires after == before[i / 4 := OrColumn(before[i / 4], nextCol, ColumnLane(i % 4))]
    ensures Scheduling(after, e, nk, nr, nextI, nextPos, nextCol, nextRcon)
  {
    assert i / 4 <= nr;
    NextWord(before, e, nr, nk, i, temp, last, nextCol);
    ExpandStep(before, after, e, nr, i, nextCol, 4 * nextI);
    WordBefore(e, i, nextI);
  }

  lemma WordBefore(e: seq<seq<bv8>>, i: nat, next: nat)
    requires i < |e| && next == i + 1
    ensures e[next - 1] == e[i]
  {
  }

  /** Updating one of the first nr + 1 round keys leaves the ones after them alone. */
  lemma UpdateFrame(before: seq<State>, after: seq<State>, index: nat, v: State, nr: nat)
    requires index <= nr && index < |before| && after == before[index := v]
    ensures forall j :: nr < j < |after| ==> after[j] == before[j]
  {
  }

  /**
   * One step of the third loop of aes__key_schedule: word i is computed from
   * first_col, holding word i - 1, and word i - nk, and ORed into column
   * i % 4 of round key i / 4; the new first_col holds word i.
   */
  method ExpandWord(roundKeys: array<State>, nk: nat, nr: nat, i: nat, pos: nat, firstCol: State, rcon: State,
                    ghost e: seq<seq<bv8>>)
    returns (nextI: nat, nextPos: nat, nextCol: State, nextRcon: State)
    requires Scheduling(roundKeys[..], e, nk, nr, i, pos, firstCol, rcon)
    requires i < 4 * (nr + 1) && Follows(e, nk, i)
    modifies roundKeys
    ensures nextI == i + 1 && Scheduling(roundKeys[..], e, nk, nr, nextI, nextPos, nextCol, nextRcon)
    ensures forall j :: nr < j < roundKeys.Length ==> roundKeys[j] == old(roundKeys[j])
  {
    nextI, nextPos := i + 1, pos + 1;
    var temp;
    temp, nextRcon := TransformColumn(firstCol, rcon, pos, nk, i, nextPos);
    var last := roundKeys[(i - nk) / 4];
    ghost var before := roundKeys[..];
    assert i / 4 <= nr;
    nextCol := KeySetupRoundCore(roundKeys, i / 4, ColumnLane(i % 4), temp, last, ColumnLane((i - nk) % 4));
    SchedulingStep(before, roundKeys[..], e, nk, nr, i, pos, firstCol, rcon, temp, last,
                   nextI, nextPos, nextCol, nextRcon);
    UpdateFrame(before, roundKeys[..], i / 4, OrColumn(before[i / 4], nextCol, ColumnLane(i % 4)), nr);
  }

  /** first_col before the third loop of aes__key_schedule: the last word of the key, in column 0. */
  method LastKeyWord(roundKeys: array<State>, nk: nat, nr: nat, ghost e: seq<seq<bv8>>) returns (firstCol: State)
    requires 1 <= nk <= 4 * (nr + 1) && nr < roundKeys.Length
    requires |e| == 4 * (nr + 1) && forall w :: 0 <= w < |e| ==> |e[w]| == 4
    requires Expanded(Blocks(roundKeys[..], nr), e, nr, 4 * nk)
    ensures ColumnWord(firstCol, 0) == e[nk - 1]
  {
    firstCol := GetColumn(roundKeys[(nk - 1) / 4], ColumnLane((nk - 1) % 4));
    ColumnOfWord(roundKeys[..], e, nr, 4 * nk, nk - 1);
  }

  /** The third loop of aes__key_schedule from word i on. */
  method ExpandFrom(roundKeys: array<State>, nk: nat, nr: nat, i: nat, pos: nat, firstCol: State, rcon: State,
                    ghost e: seq<seq<bv8>>)
    requires Scheduling(roundKeys[..], e, nk, nr, i, pos, firstCol, rcon)
    requires forall w :: nk <= w < |e| ==> Follows(e, nk, w)
    modifies roundKeys
    ensures Expanded(Blocks(roundKeys[..], nr), e, nr, 16 * (nr + 1))
    ensures forall j :: nr < j < roundKeys.Length ==> roundKeys[j] == old(roundKeys[j])
  {
    var i, pos, firstCol, rcon := i, pos, firstCol, rcon;
    while i < 4 * (nr + 1)
      invariant Scheduling(roundKeys[..], e, nk, nr, i, pos, firstCol, rcon)
      invariant forall j :: nr < j < roundKeys.Length ==> roundKeys[j] == old(roundKeys[j])
      decreases 4 * (nr + 1) - i
    {
      assert Follows(e, nk, i);
      i, pos, firstCol, rcon := ExpandWord(roundKeys, nk, nr, i, pos, firstCol, rcon, e);
    }
    assert 4 * i == 16 * (nr + 1);
  }

  /**
   * The third loop of aes__key_schedule: every further word is computed from
   * the one before it, kept in first_col, and the one nk words back, and ORed
   * into its column; rcon holds the next round constant.
   */
  method ExpandWords(roundKeys: array<State>, nk: nat, nr: nat, ghost e: seq<seq<bv8>>)
    requires 1 <= nk <= 4 * (nr + 1) && nr < roundKeys.Length
    requires |e| == 4 * (nr + 1) && forall w :: 0 <= w < |e| ==> |e[w]| == 4
    requires forall i :: nk <= i < |e| ==> Follows(e, nk, i)
    requires Expanded(Blocks(roundKeys[..], nr), e, nr, 4 * nk)
    modifies roundKeys
    ensures Expanded(Blocks(roundKeys[..], nr), e, nr, 16 * (nr + 1))
    ensures forall j :: nr < j < roundKeys.Length ==> roundKeys[j] == old(roundKeys[j])
  {
    var rcon := Slices(1, 0, 0, 0, 0, 0, 0, 0);
    RconFirst();
    var firstCol := LastKeyWord(roundKeys, nk, nr, e);
    assert RconIndex(0, nk) == 1;
    ExpandFrom(roundKeys, nk, nr, nk, 0, firstCol, rcon, e);
  }

  /**
   * aes__key_schedule: clears round keys 0 to nr, stores the key in the first
   * nk words, then computes every further word from the one before it and the
   * one nk words back, keeping the running word in first_col.  Round keys
   * 0 to nr end up holding the round keys of FIPS 197, section 5.2; the ones
   * after nr are not touched.
   */
  method KeySchedule(roundKeys: array<State>, key: seq<bv8>, nk: nat, nr: nat)
    requires 1 <= nk <= 4 * (nr + 1) && |key| == 4 * nk && nr < roundKeys.Length
    modifies roundKeys
    ensures forall j :: 0 <= j <= nr ==> roundKeys[j] == Pack(RoundKey(key, nk, nr, j))
    ensures forall j :: nr < j < roundKeys.Length ==> roundKeys[j] == old(roundKeys[j])
  {
    ghost var e := ExpandKey(key, nk, nr);
    ClearRoundKeys(roundKeys, nr);
    ClearedExpanded(roundKeys[..], e, nr);
    LoadKey(roundKeys, key, nk, nr, e);
    ExpandWords(roundKeys, nk, nr, e);
    forall j | 0 <= j <= nr
      ensures roundKeys[j] == Pack(RoundKey(key, nk, nr, j))
    {
      ExpandedPacked(roundKeys[..], e, nr, j, RoundKey(key, nk, nr, j));
    }
  }
}
