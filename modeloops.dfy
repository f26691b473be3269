/**
 * The loops of the mode functions aesbs_ecb_encrypt, aesbs_ecb_decrypt,
 * aesbs_cbc_encrypt, aesbs_cbc_decrypt and aesbs_ctr_xcrypt over a buffer,
 * with the round keys already copied out of the context.  Each is proved to
 * write into its output buffer exactly what the matching function of
 * BlockModes computes, with the bitsliced cipher under those round keys as
 * the block function.
 */
module ModeLoops {
  import opened Bitslice
  import opened Packing
  import opened BlockCipher
  import opened CounterAdd
  import opened BlockModes
  import opened BlockFunction

  // ---------------------------------------------------------------- states and bytes

  /** aes__xor_state read back as bytes: byte k of the result is byte k of a XOR byte k of b. */
  lemma UnpackXor(a: State, b: State)
    ensures Unpack(XorState(a, b)) == XorBytes(Unpack(a), Unpack(b))
  {
    forall k | 0 <= k < 16
      ensures Unpack(XorState(a, b))[k] == Unpack(a)[k] ^ Unpack(b)[k]
    {
      AddRoundKeyLanes(a, b, LaneOfByte(k));
    }
  }

  /** The same with the operands of the byte XOR the other way round. */
  lemma UnpackXorSwap(a: State, b: State)
    ensures Unpack(XorState(a, b)) == XorBytes(Unpack(b), Unpack(a))
  {
    forall k | 0 <= k < 16
      ensures Unpack(XorState(a, b))[k] == Unpack(b)[k] ^ Unpack(a)[k]
    {
      AddRoundKeyLanes(a, b, LaneOfByte(k));
    }
  }

  // ---------------------------------------------------------------- one block of a buffer
  //
  // The bodies of the mode loops, for the block at offset off.  Each reads
  // its input block before it writes its output block, so src and dest may
  // be the same buffer.

  /** aesbs_enc_block on the packed block b, seen as the block function enc. */
  method EncryptState(nr: nat, roundKeys: seq<State>, ghost enc: Block -> Block,
                      plain: State, ghost b: Block) returns (block: State)
    requires 1 <= nr < |roundKeys| && Encrypts(enc, roundKeys, nr)
    requires Unpack(plain) == b
    ensures Unpack(block) == enc(b)
  {
    PackUnpack(plain);
    block := EncBlock(nr, roundKeys, plain);
    assert Unpack(block) == EncryptBlock(roundKeys, nr, b);
  }

  /** aesbs_dec_block on the packed block b, seen as the block function dec. */
  method DecryptState(nr: nat, roundKeys: seq<State>, ghost dec: Block -> Block,
                      cipher: State, ghost b: Block) returns (block: State)
    requires 1 <= nr < |roundKeys| && Decrypts(dec, roundKeys, nr)
    requires Unpack(cipher) == b
    ensures Unpack(block) == dec(b)
  {
    PackUnpack(cipher);
    block := DecBlock(nr, roundKeys, cipher);
    assert Unpack(block) == DecryptBlock(roundKeys, nr, b);
  }

  /** One ECB encryption step: store_bytes_to_bitslice, aesbs_enc_block, save_bitslice_to_bytes. */
  method EncryptAt(nr: nat, roundKeys: seq<State>, ghost enc: Block -> Block,
                   src: array<bv8>, dest: array<bv8>, off: nat)
    requires 1 <= nr < |roundKeys| && Encrypts(enc, roundKeys, nr)
    requires off + 16 <= src.Length && off + 16 <= dest.Length
    modifies dest
    ensures dest[off..off + 16] == enc(old(src[off..off + 16]))
    ensures forall k :: 0 <= k < dest.Length && !(off <= k < off + 16) ==> dest[k] == old(dest[k])
  {
    ghost var plain: Block := src[off..off + 16];
    var block := StoreBytes(src, off);
    UnpackPack(plain);
    block := EncryptState(nr, roundKeys, enc, block, plain);
    Save(dest, off, block);
  }

  /** One ECB decryption step: store_bytes_to_bitslice, aesbs_dec_block, save_bitslice_to_bytes. */
  method DecryptAt(nr: nat, roundKeys: seq<State>, ghost dec: Block -> Block,
                   src: array<bv8>, dest: array<bv8>, off: nat)
    requires 1 <= nr < |roundKeys| && Decrypts(dec, roundKeys, nr)
    requires off + 16 <= src.Length && off + 16 <= dest.Length
    modifies dest
    ensures dest[off..off + 16] == dec(old(src[off..off + 16]))
    ensures forall k :: 0 <= k < dest.Length && !(off <= k < off + 16) ==> dest[k] == old(dest[k])
  {
    ghost var cipher: Block := src[off..off + 16];
    var block := StoreBytes(src, off);
    UnpackPack(cipher);
    block := DecryptState(nr, roundKeys, dec, block, cipher);
    Save(dest, off, block);
  }

  /**
   * One CBC encryption step: the plaintext block XOR the previous ciphertext
   * block prev (held packed in previous) is encrypted; the new ciphertext
   * block is returned, still packed, for the next step.
   */
  method CbcEncryptAt(nr: nat, roundKeys: seq<State>, ghost enc: Block -> Block,
                      src: array<bv8>, dest: array<bv8>, off: nat, previous: State, ghost prev: Block)
    returns (block: State)
    requires 1 <= nr < |roundKeys| && Encrypts(enc, roundKeys, nr)
    requires off + 16 <= src.Length && off + 16 <= dest.Length
    requires Unpack(previous) == prev
    modifies dest
    ensures dest[off..off + 16] == enc(XorBytes(old(src[off..off + 16]), prev))
    ensures Unpack(block) == dest[off..off + 16]
    ensures forall k :: 0 <= k < dest.Length && !(off <= k < off + 16) ==> dest[k] == old(dest[k])
  {
    ghost var plain: Block := src[off..off + 16];
    var plainBlock := StoreBytes(src, off);
    UnpackPack(plain);
    block := XorState(plainBlock, previous);
    UnpackXor(plainBlock, previous);
    ghost var mixed: Block := XorBytes(plain, prev);
    block := EncryptState(nr, roundKeys, enc, block, mixed);
    Save(dest, off, block);
  }

  /**
   * One CBC decryption step: the ciphertext block is decrypted and XORed
   * with the previous ciphertext block prev; this ciphertext block is
   * returned packed for the next step.
   */
  method CbcDecryptAt(nr: nat, roundKeys: seq<State>, ghost dec: Block -> Block,
                      src: array<bv8>, dest: array<bv8>, off: nat, previous: State, ghost prev: Block)
    returns (cipherBlock: State)
    requires 1 <= nr < |roundKeys| && Decrypts(dec, roundKeys, nr)
    requires off + 16 <= src.Length && off + 16 <= dest.Length
    requires Unpack(previous) == prev
    modifies dest
    ensures dest[off..off + 16] == XorBytes(dec(old(src[off..off + 16])), prev)
    ensures Unpack(cipherBlock) == old(src[off..off + 16])
    ensures forall k :: 0 <= k < dest.Length && !(off <= k < off + 16) ==> dest[k] == old(dest[k])
  {
    ghost var cipher: Block := src[off..off + 16];
    cipherBlock := StoreBytes(src, off);
    UnpackPack(cipher);
    var block := DecryptState(nr, roundKeys, dec, cipherBlock, cipher);
    UnpackXor(block, previous);
    block := XorState(block, previous);
    Save(dest, off, block);
  }

  /**
   * One whole CTR block: the input block XOR the encryption of the counter
   * block ctr (held packed in ivState); the incremented counter block is
   * returned packed.
   */
  method CtrAt(nr: nat, roundKeys: seq<State>, ghost enc: Block -> Block,
               src: array<bv8>, dest: array<bv8>, off: nat, ivState: State, ghost ctr: Block)
    returns (next: State)
    requires 1 <= nr < |roundKeys| && Encrypts(enc, roundKeys, nr)
    requires off + 16 <= src.Length && off + 16 <= dest.Length
    requires Unpack(ivState) == ctr
    modifies dest
    ensures dest[off..off + 16] == XorBytes(old(src[off..off + 16]), enc(ctr))
    ensures Unpack(next) == Increment(ctr)
    ensures forall k :: 0 <= k < dest.Length && !(off <= k < off + 16) ==> dest[k] == old(dest[k])
  {
    ghost var input: Block := src[off..off + 16];
    var stream := EncryptState(nr, roundKeys, enc, ivState, ctr);
    var inBlock := StoreBytes(src, off);
    var outBlock := XorState(stream, inBlock);
    UnpackXorSwap(stream, inBlock);
    UnpackPack(input);
    next := IncrementBitslice(ivState);
    Save(dest, off, outBlock);
  }

  /** Fewer than 16 bytes followed by zero bytes up to a whole block. */
  function ZeroPadded(b: seq<bv8>): (r: Block)
    requires |b| < 16
    ensures r[..|b|] == b && forall k :: |b| <= k < 16 ==> r[k] == 0
  {
    b + seq(16 - |b|, _ => 0)
  }

  /** The first rem bytes of the block at offset off stored into a zero state, byte j at row j % 4 and column j / 4. */
  method StorePrefix(src: array<bv8>, off: nat, rem: nat) returns (s: State)
    requires rem < 16 && off + rem <= src.Length
    ensures s == Pack(ZeroPadded(src[off..off + rem]))
  {
    ghost var padded := ZeroPadded(src[off..off + rem]);
    s := Zero;
    forall k | 0 <= k < 16
      ensures Unpack(s)[k] == 0
    {
      UnpackZero(k);
    }
    var j := 0;
    while j < rem
      invariant j <= rem
      invariant Filled(s, padded, j)
    {
      assert 4 * (j / 4) + j % 4 == j;
      assert src[off + j] == padded[j];
      FilledStep(s, padded, j % 4, j / 4);
      s := StoreByte(s, src[off + j], j % 4, j / 4);
      j := j + 1;
    }
    FilledPack(s, padded);
  }

  /**
   * The key stream applied to a trailing partial block of rem bytes: they
   * are stored into a zero state and XORed with the encrypted counter block
   * ctr; the first rem bytes of the result are the output bytes.
   */
  method CtrPartial(nr: nat, roundKeys: seq<State>, ghost enc: Block -> Block,
                    src: array<bv8>, off: nat, rem: nat, ivState: State, ghost ctr: Block)
    returns (outBlock: State)
    requires 1 <= nr < |roundKeys| && Encrypts(enc, roundKeys, nr)
    requires rem < 16 && off + rem <= src.Length
    requires Unpack(ivState) == ctr
    ensures Unpack(outBlock)[..rem] == XorBytes(src[off..off + rem], enc(ctr))
  {
    var stream := EncryptState(nr, roundKeys, enc, ivState, ctr);
    ghost var input := src[off..off + rem];
    ghost var padded := ZeroPadded(input);
    var inBlock := StorePrefix(src, off, rem);
    outBlock := XorState(stream, inBlock);
    UnpackXorSwap(stream, inBlock);
    UnpackPack(padded);
    assert Unpack(outBlock) == XorBytes(padded, enc(ctr));
    forall k | 0 <= k < rem
      ensures Unpack(outBlock)[k] == XorBytes(input, enc(ctr))[k]
    {
      assert padded[k] == padded[..rem][k];
    }
  }

  /**
   * The trailing partial CTR block: the output block of CtrPartial is saved
   * to a temporary block whose first rem bytes are copied out.
   */
  method CtrTailAt(nr: nat, roundKeys: seq<State>, ghost enc: Block -> Block,
                   src: array<bv8>, dest: array<bv8>, off: nat, rem: nat, ivState: State, ghost ctr: Block)
    requires 1 <= nr < |roundKeys| && Encrypts(enc, roundKeys, nr)
    requires rem < 16 && off + rem <= src.Length && off + rem <= dest.Length
    requires Unpack(ivState) == ctr
    modifies dest
    ensures dest[off..off + rem] == XorBytes(old(src[off..off + rem]), enc(ctr))
    ensures forall k :: 0 <= k < dest.Length && !(off <= k < off + rem) ==> dest[k] == old(dest[k])
  {
    var outBlock := CtrPartial(nr, roundKeys, enc, src, off, rem, ivState, ctr);
    var outBytes := new bv8[16];
    Save(outBytes, 0, outBlock);
    assert outBytes[..rem] == Unpack(outBlock)[..rem];
    forall k | 0 <= k < rem {
      dest[off + k] := outBytes[k];
    }
  }

  // ---------------------------------------------------------------- the mode loops
  //
  // The loops of the mode functions over n whole blocks, with the round keys
  // already copied out of the context.  Block i of the output is written
  // from block i of the input; the output may be the input buffer itself.

  /** One iteration of the loop of aesbs_ecb_encrypt: block i of p encrypted into block i of cipherText. */
  method EcbEncryptIteration(nr: nat, roundKeys: seq<State>, ghost enc: Block -> Block,
                             cipherText: array<bv8>, plainText: array<bv8>, ghost p: seq<bv8>, i: nat)
    requires 1 <= nr < |roundKeys| && Encrypts(enc, roundKeys, nr)
    requires 16 * (i + 1) <= |p| && |p| <= plainText.Length && |p| <= cipherText.Length
    requires cipherText[..16 * i] == Ecb(enc, p[..16 * i])
    requires forall k :: 16 * i <= k < |p| ==> plainText[k] == p[k]
    modifies cipherText
    ensures cipherText[..16 * (i + 1)] == Ecb(enc, p[..16 * (i + 1)])
    ensures forall k :: 16 * (i + 1) <= k < cipherText.Length ==> cipherText[k] == old(cipherText[k])
    ensures forall k :: 16 * (i + 1) <= k < |p| ==> plainText[k] == p[k]
  {
    ghost var before := cipherText[..];
    ghost var plain: Block := p[16 * i..16 * (i + 1)];
    assert plainText[16 * i..16 * i + 16] == plain;
    EncryptAt(nr, roundKeys, enc, plainText, cipherText, 16 * i);
    AppendBlock(before, cipherText[..], i, enc(plain));
    EcbStep(enc, p, i);
  }

  /** The loop of aesbs_ecb_encrypt. */
  method EcbEncryptBlocks(nr: nat, roundKeys: seq<State>, ghost enc: Block -> Block, n: nat,
                          cipherText: array<bv8>, plainText: array<bv8>)
    requires 1 <= nr < |roundKeys| && Encrypts(enc, roundKeys, nr)
    requires 16 * n <= plainText.Length && 16 * n <= cipherText.Length
    modifies cipherText
    ensures cipherText[..16 * n] == Ecb(enc, old(plainText[..16 * n]))
    ensures cipherText[16 * n..] == old(cipherText[16 * n..])
  {
    ghost var p := plainText[..16 * n];
    assert p[..0] == [] && Ecb(enc, []) == [];
    var i := 0;
    while i < n
      invariant i <= n
      invariant cipherText[..16 * i] == Ecb(enc, p[..16 * i])
      invariant forall k :: 16 * i <= k < cipherText.Length ==> cipherText[k] == old(cipherText[k])
      invariant forall k :: 16 * i <= k < |p| ==> plainText[k] == p[k]
    {
      EcbEncryptIteration(nr, roundKeys, enc, cipherText, plainText, p, i);
      i := i + 1;
    }
    assert p[..16 * i] == p;
  }

  /** One iteration of the loop of aesbs_ecb_decrypt: block i of c decrypted into block i of plainText. */
  method EcbDecryptIteration(nr: nat, roundKeys: seq<State>, ghost dec: Block -> Block,
                             plainText: array<bv8>, cipherText: array<bv8>, ghost c: seq<bv8>, i: nat)
    requires 1 <= nr < |roundKeys| && Decrypts(dec, roundKeys, nr)
    requires 16 * (i + 1) <= |c| && |c| <= cipherText.Length && |c| <= plainText.Length
    requires plainText[..16 * i] == InvEcb(dec, c[..16 * i])
    requires forall k :: 16 * i <= k < |c| ==> cipherText[k] == c[k]
    modifies plainText
    ensures plainText[..16 * (i + 1)] == InvEcb(dec, c[..16 * (i + 1)])
    ensures forall k :: 16 * (i + 1) <= k < plainText.Length ==> plainText[k] == old(plainText[k])
    ensures forall k :: 16 * (i + 1) <= k < |c| ==> cipherText[k] == c[k]
  {
    ghost var before := plainText[..];
    ghost var cipher: Block := c[16 * i..16 * (i + 1)];
    assert cipherText[16 * i..16 * i + 16] == cipher;
    DecryptAt(nr, roundKeys, dec, cipherText, plainText, 16 * i);
    AppendBlock(before, plainText[..], i, dec(cipher));
    InvEcbStep(dec, c, i);
  }

  /** The loop of aesbs_ecb_decrypt. */
  method EcbDecryptBlocks(nr: nat, roundKeys: seq<State>, ghost dec: Block -> Block, n: nat,
                          plainText: array<bv8>, cipherText: array<bv8>)
    requires 1 <= nr < |roundKeys| && Decrypts(dec, roundKeys, nr)
    requires 16 * n <= cipherText.Length && 16 * n <= plainText.Length
    modifies plainText
    ensures plainText[..16 * n] == InvEcb(dec, old(cipherText[..16 * n]))
    ensures plainText[16 * n..] == old(plainText[16 * n..])
  {
    ghost var c := cipherText[..16 * n];
    assert c[..0] == [] && InvEcb(dec, []) == [];
    var i := 0;
    while i < n
      invariant i <= n
      invariant plainText[..16 * i] == InvEcb(dec, c[..16 * i])
      invariant forall k :: 16 * i <= k < plainText.Length ==> plainText[k] == old(plainText[k])
      invariant forall k :: 16 * i <= k < |c| ==> cipherText[k] == c[k]
    {
      EcbDecryptIteration(nr, roundKeys, dec, plainText, cipherText, c, i);
      i := i + 1;
    }
    assert c[..16 * i] == c;
  }

  /**
   * One iteration of the loop of aesbs_cbc_encrypt: block i of p XOR the
   * previous ciphertext block (held packed in chain) encrypted into block i
   * of cipherText; that block is returned packed.
   */
  method CbcEncryptIteration(nr: nat, roundKeys: seq<State>, ghost enc: Block -> Block,
                             cipherText: array<bv8>, plainText: array<bv8>, ghost iv: Block, ghost p: seq<bv8>,
                             i: nat, chain: State)
    returns (next: State)
    requires 1 <= nr < |roundKeys| && Encrypts(enc, roundKeys, nr)
    requires 16 * (i + 1) <= |p| && |p| <= plainText.Length && |p| <= cipherText.Length
    requires cipherText[..16 * i] == Cbc(enc, iv, p[..16 * i])
    requires Unpack(chain) == LastBlock(iv, cipherText[..16 * i])
    requires forall k :: 16 * i <= k < |p| ==> plainText[k] == p[k]
    modifies cipherText
    ensures cipherText[..16 * (i + 1)] == Cbc(enc, iv, p[..16 * (i + 1)])
    ensures Unpack(next) == LastBlock(iv, cipherText[..16 * (i + 1)])
    ensures forall k :: 16 * (i + 1) <= k < cipherText.Length ==> cipherText[k] == old(cipherText[k])
    ensures forall k :: 16 * (i + 1) <= k < |p| ==> plainText[k] == p[k]
  {
    ghost var before := cipherText[..];
    ghost var prev := LastBlock(iv, cipherText[..16 * i]);
    ghost var plain: Block := p[16 * i..16 * (i + 1)];
    assert plainText[16 * i..16 * i + 16] == plain;
    next := CbcEncryptAt(nr, roundKeys, enc, plainText, cipherText, 16 * i, chain, prev);
    AppendBlock(before, cipherText[..], i, enc(XorBytes(plain, prev)));
    CbcStep(enc, iv, p, i);
    assert cipherText[..16 * (i + 1)][16 * i..] == cipherText[16 * i..16 * (i + 1)];
  }

  /** The loop of aesbs_cbc_encrypt, previous holding the iv packed. */
  method CbcEncryptBlocks(nr: nat, roundKeys: seq<State>, ghost enc: Block -> Block, n: nat,
                          cipherText: array<bv8>, plainText: array<bv8>, previous: State, ghost iv: Block)
    requires 1 <= nr < |roundKeys| && Encrypts(enc, roundKeys, nr)
    requires 16 * n <= plainText.Length && 16 * n <= cipherText.Length
    requires Unpack(previous) == iv
    modifies cipherText
    ensures cipherText[..16 * n] == Cbc(enc, iv, old(plainText[..16 * n]))
    ensures cipherText[16 * n..] == old(cipherText[16 * n..])
  {
    ghost var p := plainText[..16 * n];
    assert p[..0] == [] && Cbc(enc, iv, []) == [] && cipherText[..0] == [];
    var chain := previous;
    var i := 0;
    while i < n
      invariant i <= n
      invariant cipherText[..16 * i] == Cbc(enc, iv, p[..16 * i])
      invariant Unpack(chain) == LastBlock(iv, cipherText[..16 * i])
      invariant forall k :: 16 * i <= k < cipherText.Length ==> cipherText[k] == old(cipherText[k])
      invariant forall k :: 16 * i <= k < |p| ==> plainText[k] == p[k]
    {
      chain := CbcEncryptIteration(nr, roundKeys, enc, cipherText, plainText, iv, p, i, chain);
      i := i + 1;
    }
    assert p[..16 * i] == p;
  }

  /**
   * One iteration of the loop of aesbs_cbc_decrypt: block i of c decrypted
   * and XORed with the previous ciphertext block (held packed in chain) into
   * block i of plainText; block i of c is returned packed.
   */
  method CbcDecryptIteration(nr: nat, roundKeys: seq<State>, ghost dec: Block -> Block,
                             plainText: array<bv8>, cipherText: array<bv8>, ghost iv: Block, ghost c: seq<bv8>,
                             i: nat, chain: State)
    returns (next: State)
    requires 1 <= nr < |roundKeys| && Decrypts(dec, roundKeys, nr)
    requires 16 * (i + 1) <= |c| && |c| <= cipherText.Length && |c| <= plainText.Length
    requires plainText[..16 * i] == InvCbc(dec, iv, c[..16 * i])
    requires Unpack(chain) == LastBlock(iv, c[..16 * i])
    requires forall k :: 16 * i <= k < |c| ==> cipherText[k] == c[k]
    modifies plainText
    ensures plainText[..16 * (i + 1)] == InvCbc(dec, iv, c[..16 * (i + 1)])
    ensures Unpack(next) == LastBlock(iv, c[..16 * (i + 1)])
    ensures forall k :: 16 * (i + 1) <= k < plainText.Length ==> plainText[k] == old(plainText[k])
    ensures forall k :: 16 * (i + 1) <= k < |c| ==> cipherText[k] == c[k]
  {
    ghost var before := plainText[..];
    ghost var prev := LastBlock(iv, c[..16 * i]);
    ghost var cipher: Block := c[16 * i..16 * (i + 1)];
    assert cipherText[16 * i..16 * i + 16] == cipher;
    next := CbcDecryptAt(nr, roundKeys, dec, cipherText, plainText, 16 * i, chain, prev);
    AppendBlock(before, plainText[..], i, XorBytes(dec(cipher), prev));
    InvCbcStep(dec, iv, c, i);
    assert c[..16 * (i + 1)][16 * i..] == c[16 * i..16 * (i + 1)];
  }

  /** The loop of aesbs_cbc_decrypt, previous holding the iv packed. */
  method CbcDecryptBlocks(nr: nat, roundKeys: seq<State>, ghost dec: Block -> Block, n: nat,
                          plainText: array<bv8>, cipherText: array<bv8>, previous: State, ghost iv: Block)
    requires 1 <= nr < |roundKeys| && Decrypts(dec, roundKeys, nr)
    requires 16 * n <= cipherText.Length && 16 * n <= plainText.Length
    requires Unpack(previous) == iv
    modifies plainText
    ensures plainText[..16 * n] == InvCbc(dec, iv, old(cipherText[..16 * n]))
    ensures plainText[16 * n..] == old(plainText[16 * n..])
  {
    ghost var c := cipherText[..16 * n];
    assert c[..0] == [] && InvCbc(dec, iv, []) == [];
    var chain := previous;
    var i := 0;
    while i < n
      invariant i <= n
      invariant plainText[..16 * i] == InvCbc(dec, iv, c[..16 * i])
      invariant Unpack(chain) == LastBlock(iv, c[..16 * i])
      invariant forall k :: 16 * i <= k < plainText.Length ==> plainText[k] == old(plainText[k])
      invariant forall k :: 16 * i <= k < |c| ==> cipherText[k] == c[k]
    {
      chain := CbcDecryptIteration(nr, roundKeys, dec, plainText, cipherText, iv, c, i, chain);
      i := i + 1;
    }
    assert c[..16 * i] == c;
  }

  /**
   * One iteration of the whole-block loop of aesbs_ctr_xcrypt: block i of
   * x is XORed with the encryption of counter block i, held packed in
   * ivState, and the incremented counter block is returned packed.
   */
  method CtrIteration(nr: nat, roundKeys: seq<State>, ghost enc: Block -> Block,
                      out: array<bv8>, input: array<bv8>, ghost ctr: Block, ghost x: seq<bv8>, i: nat, ivState: State)
    returns (next: State)
    requires 1 <= nr < |roundKeys| && Encrypts(enc, roundKeys, nr)
    requires 16 * (i + 1) <= |x| && |x| <= input.Length && |x| <= out.Length
    requires out[..16 * i] == Ctr(enc, ctr, x[..16 * i])
    requires Unpack(ivState) == CounterAfter(ctr, i)
    requires forall k :: 16 * i <= k < |x| ==> input[k] == x[k]
    modifies out
    ensures out[..16 * (i + 1)] == Ctr(enc, ctr, x[..16 * (i + 1)])
    ensures Unpack(next) == CounterAfter(ctr, i + 1)
    ensures forall k :: 16 * (i + 1) <= k < out.Length ==> out[k] == old(out[k])
    ensures forall k :: 16 * (i + 1) <= k < |x| ==> input[k] == x[k]
  {
    ghost var before := out[..];
    ghost var block: Block := x[16 * i..16 * (i + 1)];
    assert input[16 * i..16 * i + 16] == block;
    next := CtrAt(nr, roundKeys, enc, input, out, 16 * i, ivState, CounterAfter(ctr, i));
    AppendBlock(before, out[..], i, XorBytes(block, enc(CounterAfter(ctr, i))));
    CtrStep(enc, ctr, x, i);
  }

  /**
   * The whole-block loop of aesbs_ctr_xcrypt, ivState holding the counter
   * block ctr packed; the counter block after the n blocks is returned packed.
   */
  method CtrWholeBlocks(nr: nat, roundKeys: seq<State>, ghost enc: Block -> Block, n: nat,
                        out: array<bv8>, input: array<bv8>, ivState: State, ghost ctr: Block)
    returns (next: State)
    requires 1 <= nr < |roundKeys| && Encrypts(enc, roundKeys, nr)
    requires 16 * n <= input.Length && 16 * n <= out.Length
    requires Unpack(ivState) == ctr
    modifies out
    ensures out[..16 * n] == Ctr(enc, ctr, old(input[..16 * n]))
    ensures out[16 * n..] == old(out[16 * n..])
    ensures Unpack(next) == CounterAfter(ctr, n)
  {
    ghost var x := input[..16 * n];
    assert x[..0] == [] && Ctr(enc, ctr, []) == [];
    next := ivState;
    var i := 0;
    while i < n
      invariant i <= n
      invariant out[..16 * i] == Ctr(enc, ctr, x[..16 * i])
      invariant Unpack(next) == CounterAfter(ctr, i)
      invariant forall k :: 16 * i <= k < out.Length ==> out[k] == old(out[k])
      invariant forall k :: 16 * i <= k < |x| ==> input[k] == x[k]
    {
      next := CtrIteration(nr, roundKeys, enc, out, input, ctr, x, i, next);
      i := i + 1;
    }
    assert x[..16 * i] == x;
  }

  /**
   * The body of aesbs_ctr_xcrypt after the round keys are copied: the whole
   * blocks, then a trailing partial block; the counter block after the whole
   * blocks is returned packed.
   */
  method CtrBytes(nr: nat, roundKeys: seq<State>, ghost enc: Block -> Block, textsize: nat,
                  out: array<bv8>, input: array<bv8>, ivState: State, ghost ctr: Block)
    returns (next: State)
    requires 1 <= nr < |roundKeys| && Encrypts(enc, roundKeys, nr)
    requires textsize <= input.Length && textsize <= out.Length
    requires Unpack(ivState) == ctr
    modifies out
    ensures out[..textsize] == Ctr(enc, ctr, old(input[..textsize]))
    ensures out[textsize..] == old(out[textsize..])
    ensures Unpack(next) == CounterAfter(ctr, textsize / 16)
  {
    ghost var x := input[..textsize];
    ghost var initial := out[..];
    var blocks := textsize / 16;
    var n := 16 * blocks;
    BlocksAndRest(textsize);
    assert input[..n] == x[..n];
    next := CtrWholeBlocks(nr, roundKeys, enc, blocks, out, input, ivState, ctr);
    ghost var whole := out[..];
    CtrSplit(enc, ctr, x, blocks);
    if textsize % 16 != 0 {
      assert input[n..textsize] == x[n..];
      CtrTailAt(nr, roundKeys, enc, input, out, n, textsize % 16, next, CounterAfter(ctr, blocks));
      KeepOutside(initial, whole, out[..], n, textsize);
    } else {
      assert x[n..] == [] && Ctr(enc, CounterAfter(ctr, blocks), []) == [];
      KeepOutside(initial, whole, out[..], n, textsize);
    }
  }

  /**
   * A buffer final written only between n and t after whole, which kept
   * initial from n on: final keeps whole before n and initial from t on, and
   * its first t bytes are whole's first n bytes followed by its own.
   */
  lemma KeepOutside(initial: seq<bv8>, whole: seq<bv8>, final: seq<bv8>, n: nat, t: nat)
    requires n <= t <= |initial| && |initial| == |whole| == |final|
    requires whole[n..] == initial[n..]
    requires forall k :: 0 <= k < |final| && !(n <= k < t) ==> final[k] == whole[k]
    ensures final[..n] == whole[..n]
    ensures final[..t] == whole[..n] + final[n..t]
    ensures final[t..] == initial[t..]
  {
    forall k | t <= k < |final|
      ensures final[k] == initial[k]
    {
      assert whole[n..][k - n] == initial[n..][k - n];
    }
  }
}
