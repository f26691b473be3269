/**
 * The cipher and the inverse cipher of FIPS 197 (sections 5.1 and 5.3) on
 * 16-byte blocks, and the proof that the bitsliced rounds compute them.
 *
 * Each transformation is the byte form of ByteLayers and ColumnMixing;
 * reading the state back as bytes turns each bitsliced transformation into
 * its byte form, and so the bitsliced cipher into the cipher of the standard.
 */
module ByteCipher {
  import opened Bitslice
  import opened Packing
  import opened SubBytesCircuit
  import opened Rotations
  import opened MixColumnsLayer
  import opened ColumnMixing
  import opened KeyExpansion
  import opened ByteLayers
  import opened BlockCipher
  import opened BlockModes
  import opened BlockFunction

  /** AddRoundKey (FIPS 197, 5.1.4): the bytewise XOR of the block and the round key. */
  function AddRoundKeyBlock(b: Block, key: Block): Block
  {
    seq(16, k requires 0 <= k < 16 => b[k] ^ key[k])
  }

  /** The bitsliced AddRoundKey is the bytewise XOR of FIPS 197, 5.1.4. */
  lemma UnpackAddRoundKey(s: State, key: State)
    ensures Unpack(AddRoundKey(s, key)) == AddRoundKeyBlock(Unpack(s), Unpack(key))
  {
    forall k: nat | k < 16
      ensures Unpack(AddRoundKey(s, key))[k] == AddRoundKeyBlock(Unpack(s), Unpack(key))[k]
    {
      AddRoundKeyLanes(s, key, LaneOfByte(k));
    }
  }

  /** Adding the same round key twice gives back the block. */
  lemma AddRoundKeyBlockTwice(b: Block, key: Block)
    ensures AddRoundKeyBlock(AddRoundKeyBlock(b, key), key) == b
  {
    forall k: nat | k < 16
      ensures AddRoundKeyBlock(AddRoundKeyBlock(b, key), key)[k] == b[k]
    {
      assert (b[k] ^ key[k]) ^ key[k] == b[k];
    }
  }

  // ---------------------------------------------------------------- the cipher on bytes

  /** One of the rounds 1 .. Nr - 1 of the cipher (FIPS 197, Figure 5). */
  function FipsRound(b: Block, key: Block): Block
  {
    AddRoundKeyBlock(MixColumnBytes(ShiftRowsBlock(SubBytesBlock(b))), key)
  }

  /** The block entering round `round`: rounds 1 .. round - 1 from b with the round keys w[1 .. round - 1]. */
  function FipsRounds(w: seq<Block>, b: Block, round: nat): Block
    requires 1 <= round <= |w|
  {
    if round == 1 then b else FipsRound(FipsRounds(w, b, round - 1), w[round - 1])
  }

  /** Cipher() of FIPS 197, Figure 5, with Nr rounds and round keys w[0 .. Nr]. */
  function FipsCipher(w: seq<Block>, nr: nat, input: Block): Block
    requires 1 <= nr < |w|
  {
    AddRoundKeyBlock(ShiftRowsBlock(SubBytesBlock(FipsRounds(w, AddRoundKeyBlock(input, w[0]), nr))), w[nr])
  }

  /** One of the rounds Nr - 1 .. 1 of the inverse cipher (FIPS 197, Figure 12). */
  function FipsInvRound(b: Block, key: Block): Block
  {
    InvMixColumnBytes(AddRoundKeyBlock(InvSubBytesBlock(InvShiftRowsBlock(b)), key))
  }

  /** The block entering inverse round `round`, counting down the round keys w[Nr - 1] .. w[Nr - round + 1]. */
  function FipsInvRounds(w: seq<Block>, nr: nat, b: Block, round: nat): Block
    requires 1 <= round <= nr < |w|
  {
    if round == 1 then b else FipsInvRound(FipsInvRounds(w, nr, b, round - 1), w[nr - (round - 1)])
  }

  /** InvCipher() of FIPS 197, Figure 12, with Nr rounds and round keys w[Nr] down to w[0]. */
  function FipsInvCipher(w: seq<Block>, nr: nat, input: Block): Block
    requires 1 <= nr < |w|
  {
    AddRoundKeyBlock(InvSubBytesBlock(InvShiftRowsBlock(FipsInvRounds(w, nr, AddRoundKeyBlock(input, w[nr]), nr))), w[0])
  }

  // ---------------------------------------------------------------- the bitsliced cipher read as bytes

  /** The round keys read back as bytes. */
  function Unpacked(w: seq<State>): (keys: seq<Block>)
    ensures |keys| == |w|
  {
    seq(|w|, j requires 0 <= j < |w| => Unpack(w[j]))
  }

  /** Round keys packed from bytes read back as those bytes. */
  lemma UnpackedPacked(w: seq<State>, keys: seq<Block>)
    requires |w| == |keys| && forall j :: 0 <= j < |w| ==> w[j] == Pack(keys[j])
    ensures Unpacked(w) == keys
  {
    forall j | 0 <= j < |w|
      ensures Unpacked(w)[j] == keys[j]
    {
      UnpackPack(keys[j]);
    }
  }

  lemma UnpackSubstituted(s: State)
    ensures Unpack(Substituted(s)) == ShiftRowsBlock(SubBytesBlock(Unpack(s)))
  {
    UnpackShiftRows(SubBytes(s));
    UnpackSubBytes(s);
  }

  /** A bitsliced round is the round of FIPS 197 on the bytes. */
  lemma UnpackRound(s: State, key: State)
    ensures Unpack(Round(s, key)) == FipsRound(Unpack(s), Unpack(key))
  {
    UnpackSubstituted(s);
    MixColumnsIsFips(Substituted(s));
    UnpackAddRoundKey(MixColumns(Substituted(s)), key);
  }

  lemma UnpackInvSubstituted(s: State)
    ensures Unpack(InvSubBytes(InvShiftRows(s))) == InvSubBytesBlock(InvShiftRowsBlock(Unpack(s)))
  {
    UnpackInvSubBytes(InvShiftRows(s));
    UnpackInvShiftRows(s);
  }

  /** A bitsliced inverse round is the inverse round of FIPS 197 on the bytes. */
  lemma UnpackInvRound(s: State, key: State)
    ensures Unpack(InvRound(s, key)) == FipsInvRound(Unpack(s), Unpack(key))
  {
    var t := InvSubBytes(InvShiftRows(s));
    UnpackInvSubstituted(s);
    UnpackAddRoundKey(t, key);
    InvMixColumnsIsFips(AddRoundKey(t, key));
  }

  lemma {:induction false} UnpackRounds(w: seq<State>, b: State, round: nat)
    requires 1 <= round <= |w|
    ensures Unpack(Rounds(Round, w, b, round)) == FipsRounds(Unpacked(w), Unpack(b), round)
  {
    if round > 1 {
      UnpackRounds(w, b, round - 1);
      UnpackRound(Rounds(Round, w, b, round - 1), w[round - 1]);
    }
  }

  lemma {:induction false} UnpackInvRounds(w: seq<State>, nr: nat, b: State, round: nat)
    requires 1 <= round <= nr < |w|
    ensures Unpack(InvRounds(InvRound, w, nr, b, round)) == FipsInvRounds(Unpacked(w), nr, Unpack(b), round)
  {
    if round > 1 {
      UnpackInvRounds(w, nr, b, round - 1);
      UnpackInvRound(InvRounds(InvRound, w, nr, b, round - 1), w[nr - (round - 1)]);
    }
  }

  /** The bitsliced cipher (what aesbs_enc_block computes) is Cipher() of FIPS 197 on the bytes. */
  lemma CipherIsFips(w: seq<State>, nr: nat, plain: State)
    requires 1 <= nr < |w|
    ensures Unpack(Cipher(w, nr, plain)) == FipsCipher(Unpacked(w), nr, Unpack(plain))
  {
    var start := AddRoundKey(plain, w[0]);
    var last := Rounds(Round, w, start, nr);
    UnpackAddRoundKey(plain, w[0]);
    UnpackRounds(w, start, nr);
    UnpackSubstituted(last);
    UnpackAddRoundKey(Substituted(last), w[nr]);
  }

  /** The bitsliced inverse cipher (what aesbs_dec_block computes) is InvCipher() of FIPS 197 on the bytes. */
  lemma InvCipherIsFips(w: seq<State>, nr: nat, cipher: State)
    requires 1 <= nr < |w|
    ensures Unpack(InvCipher(w, nr, cipher)) == FipsInvCipher(Unpacked(w), nr, Unpack(cipher))
  {
    var start := AddRoundKey(cipher, w[nr]);
    var last := InvRounds(InvRound, w, nr, start, nr);
    UnpackAddRoundKey(cipher, w[nr]);
    UnpackInvRounds(w, nr, start, nr);
    UnpackInvSubstituted(last);
    UnpackAddRoundKey(InvSubBytes(InvShiftRows(last)), w[0]);
  }

  /** The block function of the modes is Cipher() of FIPS 197 with the round keys read as bytes. */
  lemma EncryptBlockIsFips(w: seq<State>, nr: nat, p: Block)
    requires 1 <= nr < |w|
    ensures EncryptBlock(w, nr, p) == FipsCipher(Unpacked(w), nr, p)
  {
    CipherIsFips(w, nr, Pack(p));
    UnpackPack(p);
  }

  /** The inverse block function of the modes is InvCipher() of FIPS 197 with the round keys read as bytes. */
  lemma DecryptBlockIsFips(w: seq<State>, nr: nat, c: Block)
    requires 1 <= nr < |w|
    ensures DecryptBlock(w, nr, c) == FipsInvCipher(Unpacked(w), nr, c)
  {
    InvCipherIsFips(w, nr, Pack(c));
    UnpackPack(c);
  }

  /** On bytes too, InvCipher() undoes Cipher() under the same round keys, whatever they are. */
  lemma FipsCipherInverse(keys: seq<Block>, nr: nat, plain: Block)
    requires 1 <= nr < |keys|
    ensures FipsInvCipher(keys, nr, FipsCipher(keys, nr, plain)) == plain
  {
    var w := seq(|keys|, j requires 0 <= j < |keys| => Pack(keys[j]));
    UnpackedPacked(w, keys);
    EncryptBlockIsFips(w, nr, plain);
    DecryptBlockIsFips(w, nr, EncryptBlock(w, nr, plain));
    BlockRoundTrip(w, nr, plain);
  }

  // ---------------------------------------------------------------- with the round keys of the key expansion

  /** Round keys 0 .. Nr of the key expansion of FIPS 197, section 5.2. */
  function ExpandedRoundKeys(key: seq<bv8>, nk: nat, nr: nat): (keys: seq<Block>)
    requires 1 <= nk && |key| == 4 * nk
    ensures |keys| == nr + 1 && forall j :: 0 <= j <= nr ==> keys[j] == RoundKey(key, nk, nr, j)
  {
    seq(nr + 1, j requires 0 <= j <= nr => RoundKey(key, nk, nr, j))
  }

  /** Round keys v and w agree from round key 0 up to, but not including, round key n. */
  ghost predicate AgreeBelow(v: seq<Block>, w: seq<Block>, n: nat)
  {
    n <= |v| && n <= |w| && forall j :: 0 <= j < n ==> v[j] == w[j]
  }

  /** The rounds only read the round keys they use. */
  lemma {:induction false} FipsRoundsAgree(v: seq<Block>, w: seq<Block>, b: Block, round: nat)
    requires 1 <= round && AgreeBelow(v, w, round)
    ensures FipsRounds(v, b, round) == FipsRounds(w, b, round)
  {
    if round > 1 {
      FipsRoundsAgree(v, w, b, round - 1);
    }
  }

  /** The inverse rounds only read the round keys they use. */
  lemma {:induction false} FipsInvRoundsAgree(v: seq<Block>, w: seq<Block>, nr: nat, b: Block, round: nat)
    requires 1 <= round <= nr && AgreeBelow(v, w, nr + 1)
    ensures FipsInvRounds(v, nr, b, round) == FipsInvRounds(w, nr, b, round)
  {
    if round > 1 {
      FipsInvRoundsAgree(v, w, nr, b, round - 1);
      assert v[nr - (round - 1)] == w[nr - (round - 1)];
      FipsInvRoundsStep(v, w, nr, b, round);
    }
  }

  lemma FipsInvRoundsStep(v: seq<Block>, w: seq<Block>, nr: nat, b: Block, round: nat)
    requires 1 < round <= nr < |v| && nr < |w| && v[nr - (round - 1)] == w[nr - (round - 1)]
    requires FipsInvRounds(v, nr, b, round - 1) == FipsInvRounds(w, nr, b, round - 1)
    ensures FipsInvRounds(v, nr, b, round) == FipsInvRounds(w, nr, b, round)
  {
  }

  /** Cipher() with Nr rounds only reads the round keys 0 .. Nr. */
  lemma FipsCipherAgree(v: seq<Block>, w: seq<Block>, nr: nat, input: Block)
    requires 1 <= nr && AgreeBelow(v, w, nr + 1)
    ensures FipsCipher(v, nr, input) == FipsCipher(w, nr, input)
  {
    FipsRoundsAgree(v, w, AddRoundKeyBlock(input, w[0]), nr);
  }

  /** InvCipher() with Nr rounds only reads the round keys 0 .. Nr. */
  lemma FipsInvCipherAgree(v: seq<Block>, w: seq<Block>, nr: nat, input: Block)
    requires 1 <= nr && AgreeBelow(v, w, nr + 1)
    ensures FipsInvCipher(v, nr, input) == FipsInvCipher(w, nr, input)
  {
    FipsInvRoundsAgree(v, w, nr, AddRoundKeyBlock(input, w[nr]), nr);
  }

  /**
   * With the round keys the key schedule leaves in round_keys[0 .. Nr], the
   * block functions of the modes are Cipher() and InvCipher() of FIPS 197 for
   * the key, whatever the round keys after Nr hold.
   */
  lemma ScheduledCipherIsFips(w: seq<State>, key: seq<bv8>, nk: nat, nr: nat, b: Block)
    requires 1 <= nr < |w| && 1 <= nk && |key| == 4 * nk
    requires forall j :: 0 <= j <= nr ==> w[j] == Pack(RoundKey(key, nk, nr, j))
    ensures EncryptBlock(w, nr, b) == FipsCipher(ExpandedRoundKeys(key, nk, nr), nr, b)
    ensures DecryptBlock(w, nr, b) == FipsInvCipher(ExpandedRoundKeys(key, nk, nr), nr, b)
  {
    var keys := ExpandedRoundKeys(key, nk, nr);
    forall j | 0 <= j <= nr
      ensures Unpacked(w)[j] == keys[j]
    {
      UnpackPack(keys[j]);
    }
    EncryptBlockIsFips(w, nr, b);
    DecryptBlockIsFips(w, nr, b);
    FipsCipherAgree(Unpacked(w), keys, nr, b);
    FipsInvCipherAgree(Unpacked(w), keys, nr, b);
  }
}
