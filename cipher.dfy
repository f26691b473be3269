/**
 * The AES rounds on the bitsliced state: AddRoundKey, one encryption block
 * (aesbs_enc_block) and one decryption block (aesbs_dec_block), and the number
 * of rounds for a key size (aesbs_key_size_to_nr).
 *
 * Cipher and InvCipher say what the two block functions compute, round by
 * round, in the order of FIPS 197, sections 5.1 and 5.3; CipherInverse proves
 * that decryption with the same round keys undoes encryption.
 */
module BlockCipher {
  import opened Bitslice
  import opened SubBytesCircuit
  import opened Rotations
  import opened MixColumnsLayer
  import opened Linearity

  /** aesbs_key_size_to_nr: 10, 12 or 14 rounds for the three key sizes in bits, NONE_BS_NR (0) for anything else. */
  function KeySizeToNr(keySize: nat): (nr: nat)
    ensures nr != 0 <==> keySize == 128 || keySize == 192 || keySize == 256
    ensures nr != 0 ==> nr == keySize / 32 + 6
  {
    match keySize
    case 128 => 10
    case 192 => 12
    case 256 => 14
    case _ => 0
  }

  /** aesbs_AddRoundKey: the exclusive or of the state with a round key. */
  function AddRoundKey(state: State, roundKey: State): State
  {
    XorState(state, roundKey)
  }

  lemma GatherXor(u: Slices<bv1>, v: Slices<bv1>)
    ensures Gather(XorG(BitXorOf, u, v)) == Gather(u) ^ Gather(v)
  {
  }

  lemma LaneOfXor(y: Lane)
    ensures forall p, q :: LaneOf(y)(BvXor(p, q)) == BitXorOf(LaneOf(y)(p), LaneOf(y)(q))
  {
    forall p: bv16, q: bv16
      ensures LaneOf(y)(BvXor(p, q)) == BitXorOf(LaneOf(y)(p), LaneOf(y)(q))
    {
      BitXor(y, p, q);
    }
  }

  lemma MapLaneXor(a: State, b: State, y: Lane)
    ensures Map(LaneOf(y), XorState(a, b)) == XorG(BitXorOf, Map(LaneOf(y), a), Map(LaneOf(y), b))
  {
    LaneOfXor(y);
    MapXorG(LaneOf(y), BvXor, BitXorOf, a, b);
    XorStateG(a, b);
  }

  /** Each byte of the result is the byte of the state XOR the byte of the round key in the same lane (FIPS 197, 5.1.4). */
  lemma AddRoundKeyLanes(state: State, roundKey: State, y: Lane)
    ensures LaneByte(AddRoundKey(state, roundKey), y) == LaneByte(state, y) ^ LaneByte(roundKey, y)
  {
    MapLaneXor(state, roundKey, y);
    GatherXor(Map(LaneOf(y), state), Map(LaneOf(y), roundKey));
  }

  /** Adding the same round key twice gives back the state. */
  lemma AddRoundKeyTwice(state: State, roundKey: State)
    ensures AddRoundKey(AddRoundKey(state, roundKey), roundKey) == state
  {
    XorTwice(state, roundKey);
  }

  // ---------------------------------------------------------------- rounds

  /** SubBytes followed by ShiftRows: the part of a round before the columns are mixed. */
  function Substituted(b: State): State
  {
    ShiftRows(SubBytes(b))
  }

  /** One of the rounds 1 .. Nr - 1 of the cipher. */
  function Round(b: State, roundKey: State): State
  {
    AddRoundKey(MixColumns(Substituted(b)), roundKey)
  }

  /**
   * The state entering round `round` (1 <= round) when each round applies f
   * with the next round key: rounds 1 .. round - 1 from b with the round keys
   * w[1 .. round - 1].  The rounds are a parameter so that the facts about
   * running them in sequence are proved once, without the circuits.
   */
  function Rounds(f: (State, State) -> State, w: seq<State>, b: State, round: nat): State
    requires 1 <= round <= |w|
  {
    if round == 1 then b else f(Rounds(f, w, b, round - 1), w[round - 1])
  }

  /** The cipher of FIPS 197, section 5.1, with Nr rounds and round keys w[0 .. Nr]. */
  function Cipher(w: seq<State>, nr: nat, plain: State): State
    requires 1 <= nr < |w|
  {
    AddRoundKey(Substituted(Rounds(Round, w, AddRoundKey(plain, w[0]), nr)), w[nr])
  }

  /** One of the rounds 1 .. Nr - 1 of aesbs_dec_block. */
  function InvRound(b: State, roundKey: State): State
  {
    InvMixColumns(AddRoundKey(InvSubBytes(InvShiftRows(b)), roundKey))
  }

  /**
   * The state entering inverse round `round` (1 <= round <= Nr) when each
   * inverse round applies g with the next round key, counting down: the round
   * keys w[Nr - 1] down to w[Nr - round + 1].
   */
  function InvRounds(g: (State, State) -> State, w: seq<State>, nr: nat, b: State, round: nat): State
    requires 1 <= round <= nr < |w|
  {
    if round == 1 then b else g(InvRounds(g, w, nr, b, round - 1), w[nr - (round - 1)])
  }

  /** The inverse cipher of FIPS 197, section 5.3, with Nr rounds and round keys w[Nr] down to w[0]. */
  function InvCipher(w: seq<State>, nr: nat, cipher: State): State
    requires 1 <= nr < |w|
  {
    AddRoundKey(InvSubBytes(InvShiftRows(InvRounds(InvRound, w, nr, AddRoundKey(cipher, w[nr]), nr))), w[0])
  }

  lemma SubstitutedInverse(b: State)
    ensures InvSubBytes(InvShiftRows(Substituted(b))) == b
  {
    ShiftRowsInverse(SubBytes(b));
    SubBytesInverse(b);
  }

  /** An inverse round with the same key takes the state a round produced back to the one the round started from. */
  lemma InvRoundUndoesRound(b: State, roundKey: State)
    ensures InvRound(Substituted(Round(b, roundKey)), roundKey) == Substituted(b)
  {
    SubstitutedInverse(Round(b, roundKey));
    AddRoundKeyTwice(MixColumns(Substituted(b)), roundKey);
    MixColumnsInverse(Substituted(b));
  }

  /**
   * When g undoes f up to sub, running m - 1 inverse rounds on sub of the
   * state entering round Nr gives sub of the state that entered round Nr + 1 - m.
   */
  lemma {:induction false} InvRoundsUndoRounds(f: (State, State) -> State, g: (State, State) -> State, sub: State -> State,
                                               w: seq<State>, nr: nat, b: State, m: nat)
    requires forall p, k :: g(sub(f(p, k)), k) == sub(p)
    requires 1 <= m <= nr < |w|
    ensures InvRounds(g, w, nr, sub(Rounds(f, w, b, nr)), m) == sub(Rounds(f, w, b, nr + 1 - m))
  {
    if m > 1 {
      InvRoundsUndoRounds(f, g, sub, w, nr, b, m - 1);
      assert Rounds(f, w, b, nr + 1 - (m - 1)) == f(Rounds(f, w, b, nr + 1 - m), w[nr + 1 - m]);
    }
  }

  /** Decrypting with the same round keys recovers the plaintext. */
  lemma CipherInverse(w: seq<State>, nr: nat, plain: State)
    requires 1 <= nr < |w|
    ensures InvCipher(w, nr, Cipher(w, nr, plain)) == plain
  {
    var b := AddRoundKey(plain, w[0]);
    var last := Substituted(Rounds(Round, w, b, nr));
    AddRoundKeyTwice(last, w[nr]);
    forall p, k
      ensures InvRound(Substituted(Round(p, k)), k) == Substituted(p)
    {
      InvRoundUndoesRound(p, k);
    }
    InvRoundsUndoRounds(Round, InvRound, Substituted, w, nr, b, nr);
    SubstitutedInverse(b);
    AddRoundKeyTwice(plain, w[0]);
  }

  // The step and congruence lemmas below state equalities between round
  // indices as equalities between the round terms themselves, which the
  // solver otherwise has to rediscover through arithmetic.

  lemma RoundsStep(w: seq<State>, b: State, round: nat)
    requires 1 <= round < |w|
    ensures Rounds(Round, w, b, round + 1) == Round(Rounds(Round, w, b, round), w[round])
  {
  }

  lemma InvRoundsStep(w: seq<State>, nr: nat, b: State, round: nat, k: nat)
    requires 1 <= round < nr < |w| && k == nr - round
    ensures InvRounds(InvRound, w, nr, b, round + 1) == InvRound(InvRounds(InvRound, w, nr, b, round), w[k])
  {
  }

  lemma RoundsCongruent(w: seq<State>, b: State, i: nat, j: nat)
    requires 1 <= i == j <= |w|
    ensures Rounds(Round, w, b, i) == Rounds(Round, w, b, j)
  {
  }

  lemma InvRoundsCongruent(w: seq<State>, nr: nat, b: State, i: nat, j: nat)
    requires 1 <= i == j <= nr < |w|
    ensures InvRounds(InvRound, w, nr, b, i) == InvRounds(InvRound, w, nr, b, j)
  {
  }

  // ---------------------------------------------------------------- the two block functions

  /**
   * aesbs_enc_block: the cipher of one block with Nr rounds and
   * round_keys[0 .. Nr].  The round keys are the caller's local copy, which
   * the function only reads, so they are passed as a value.
   */
  method EncBlock(nr: nat, roundKeys: seq<State>, plain: State) returns (block: State)
    requires 1 <= nr < |roundKeys|
    ensures block == Cipher(roundKeys, nr, plain)
  {
    ghost var w := roundKeys;
    var start := AddRoundKey(plain, roundKeys[0]);
    block := start;
    var round := 1;
    while round < nr
      invariant 1 <= round <= nr
      invariant block == Rounds(Round, w, start, round)
    {
      RoundsStep(w, start, round);
      block := SubBytes(block);
      block := ShiftRows(block);
      block := MixColumns(block);
      block := AddRoundKey(block, roundKeys[round]);
      round := round + 1;
    }
    RoundsCongruent(w, start, round, nr);
    block := SubBytes(block);
    block := ShiftRows(block);
    block := AddRoundKey(block, roundKeys[round]);
  }

  /** aesbs_dec_block: the inverse cipher of one block, using the round keys from round_keys[Nr] down to round_keys[0]. */
  method DecBlock(nr: nat, roundKeys: seq<State>, cipher: State) returns (block: State)
    requires 1 <= nr < |roundKeys|
    ensures block == InvCipher(roundKeys, nr, cipher)
  {
    ghost var w := roundKeys;
    var k := nr;
    var start := AddRoundKey(cipher, roundKeys[k]);
    k := k - 1;
    block := start;
    var round := 1;
    while round < nr
      invariant 1 <= round <= nr
      invariant k == nr - round
      invariant block == InvRounds(InvRound, w, nr, start, round)
    {
      InvRoundsStep(w, nr, start, round, k);
      block := InvShiftRows(block);
      block := InvSubBytes(block);
      block := AddRoundKey(block, roundKeys[k]);
      k := k - 1;
      block := InvMixColumns(block);
      round := round + 1;
    }
    InvRoundsCongruent(w, nr, start, round, nr);
    block := InvShiftRows(block);
    block := InvSubBytes(block);
    block := AddRoundKey(block, roundKeys[k]);
  }
}
