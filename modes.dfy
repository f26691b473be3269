/**
 * The context set up by aesbs_init and the mode functions that use it:
 * aesbs_ecb_encrypt, aesbs_ecb_decrypt, aesbs_cbc_encrypt, aesbs_cbc_decrypt
 * and aesbs_ctr_xcrypt.  Each copies the round keys out of the context and
 * runs the loop of ModeLoops with the context's block functions.
 */
module Modes {
  import opened Bitslice
  import opened Packing
  import opened BlockCipher
  import opened KeyExpansion
  import opened KeySetup
  import opened CounterAdd
  import opened BlockModes
  import opened BlockFunction
  import opened ModeLoops

  // ---------------------------------------------------------------- the context

  /** Round keys 0 to nr of key, packed into states. */
  function RoundKeys(key: seq<bv8>, nk: nat, nr: nat): (w: seq<State>)
    requires 1 <= nk && |key| == 4 * nk
    ensures |w| == nr + 1
  {
    seq(nr + 1, (j: int) requires 0 <= j <= nr => Pack(RoundKey(key, nk, nr, j)))
  }

  /**
   * AesContext as the bitsliced code uses it: the key size in bits and the
   * 15 round-key states filled by aesbs_init.  key is the cipher key the
   * round keys were expanded from; encrypt and decrypt are the block cipher
   * and its inverse under those round keys, the block functions the modes
   * are stated with.
   */
  class Context {
    var keySize: nat
    var encRoundKeys: array<State>
    ghost var key: seq<bv8>
    ghost var schedule: seq<State>
    ghost var encrypt: Block -> Block
    ghost var decrypt: Block -> Block

    /** What the mode functions use: a key size AES supports, 15 round-key states, and encrypt and decrypt the cipher and its inverse under them. */
    ghost predicate Ready()
      reads this, encRoundKeys
    {
      && KeySizeToNr(keySize) != 0
      && encRoundKeys.Length == 15
      && schedule == encRoundKeys[..]
      && Encrypts(encrypt, schedule, KeySizeToNr(keySize))
      && Decrypts(decrypt, schedule, KeySizeToNr(keySize))
    }

    /** Ready, and round keys 0 to Nr are the FIPS 197 round keys of key. */
    ghost predicate Valid()
      reads this, encRoundKeys
    {
      && Ready()
      && |key| == 4 * (keySize / 32)
      && schedule[..KeySizeToNr(keySize) + 1] == RoundKeys(key, keySize / 32, KeySizeToNr(keySize))
    }

    /** aesbs_init: records the key size and expands the key into the round keys. */
    constructor Init(keySize: nat, key: seq<bv8>)
      requires keySize == 128 || keySize == 192 || keySize == 256
      requires |key| == keySize / 8
      ensures Valid()
      ensures this.keySize == keySize && this.key == key
      ensures fresh(encRoundKeys)
    {
      var nr := KeySizeToNr(keySize);
      var roundKeys := new State[15](_ => Zero);
      KeySchedule(roundKeys, key, keySize / 32, nr);
      ghost var w := roundKeys[..];
      assert w[..nr + 1] == RoundKeys(key, keySize / 32, nr);
      this.keySize := keySize;
      encRoundKeys := roundKeys;
      this.key := key;
      schedule := w;
      encrypt := Encryptor(w, nr);
      decrypt := Decryptor(w, nr);
      new;
      EncryptsSame(Encryptor(w, nr), w, nr, encrypt, schedule, KeySizeToNr(this.keySize));
      DecryptsSame(Decryptor(w, nr), w, nr, decrypt, schedule, KeySizeToNr(this.keySize));
    }

    /** aesbs_ecb_encrypt: each of the textsize / 16 whole blocks of plainText encrypted on its own into cipherText. */
    method EcbEncrypt(textsize: nat, cipherText: array<bv8>, plainText: array<bv8>)
      requires Ready()
      requires textsize / 16 * 16 <= plainText.Length && textsize / 16 * 16 <= cipherText.Length
      modifies cipherText
      ensures cipherText[..textsize / 16 * 16] == Ecb(encrypt, old(plainText[..textsize / 16 * 16]))
      ensures cipherText[textsize / 16 * 16..] == old(cipherText[textsize / 16 * 16..])
    {
      var nr := KeySizeToNr(keySize);
      var roundKeys := encRoundKeys[..];  // the local copy of the round keys
      EncryptsSame(encrypt, schedule, KeySizeToNr(keySize), encrypt, roundKeys, nr);
      EcbEncryptBlocks(nr, roundKeys, encrypt, textsize / 16, cipherText, plainText);
    }

    /** aesbs_ecb_decrypt: each of the textsize / 16 whole blocks of cipherText decrypted on its own into plainText. */
    method EcbDecrypt(textsize: nat, plainText: array<bv8>, cipherText: array<bv8>)
      requires Ready()
      requires textsize / 16 * 16 <= cipherText.Length && textsize / 16 * 16 <= plainText.Length
      modifies plainText
      ensures plainText[..textsize / 16 * 16] == InvEcb(decrypt, old(cipherText[..textsize / 16 * 16]))
      ensures plainText[textsize / 16 * 16..] == old(plainText[textsize / 16 * 16..])
    {
      var nr := KeySizeToNr(keySize);
      var roundKeys := encRoundKeys[..];  // the local copy of the round keys
      DecryptsSame(decrypt, schedule, KeySizeToNr(keySize), decrypt, roundKeys, nr);
      EcbDecryptBlocks(nr, roundKeys, decrypt, textsize / 16, plainText, cipherText);
    }

    /** aesbs_cbc_encrypt: each whole block of plainText XORed with the previous ciphertext block (iv for the first), then encrypted. */
    method CbcEncrypt(textsize: nat, cipherText: array<bv8>, plainText: array<bv8>, iv: array<bv8>)
      requires Ready()
      requires textsize / 16 * 16 <= plainText.Length && textsize / 16 * 16 <= cipherText.Length && 16 <= iv.Length
      modifies cipherText
      ensures cipherText[..textsize / 16 * 16] == Cbc(encrypt, old(iv[..16]), old(plainText[..textsize / 16 * 16]))
      ensures cipherText[textsize / 16 * 16..] == old(cipherText[textsize / 16 * 16..])
    {
      var nr := KeySizeToNr(keySize);
      var roundKeys := encRoundKeys[..];  // the local copy of the round keys
      EncryptsSame(encrypt, schedule, KeySizeToNr(keySize), encrypt, roundKeys, nr);
      ghost var ivBlock: Block := iv[..16];
      var previous := StoreBytes(iv, 0);
      UnpackPack(ivBlock);
      CbcEncryptBlocks(nr, roundKeys, encrypt, textsize / 16, cipherText, plainText, previous, ivBlock);
    }

    /** aesbs_cbc_decrypt: each whole block of cipherText decrypted, then XORed with the previous ciphertext block (iv for the first). */
    method CbcDecrypt(textsize: nat, plainText: array<bv8>, cipherText: array<bv8>, iv: array<bv8>)
      requires Ready()
      requires textsize / 16 * 16 <= cipherText.Length && textsize / 16 * 16 <= plainText.Length && 16 <= iv.Length
      modifies plainText
      ensures plainText[..textsize / 16 * 16] == InvCbc(decrypt, old(iv[..16]), old(cipherText[..textsize / 16 * 16]))
      ensures plainText[textsize / 16 * 16..] == old(plainText[textsize / 16 * 16..])
    {
      var nr := KeySizeToNr(keySize);
      var roundKeys := encRoundKeys[..];  // the local copy of the round keys
      DecryptsSame(decrypt, schedule, KeySizeToNr(keySize), decrypt, roundKeys, nr);
      ghost var ivBlock: Block := iv[..16];
      var previous := StoreBytes(iv, 0);
      UnpackPack(ivBlock);
      CbcDecryptBlocks(nr, roundKeys, decrypt, textsize / 16, plainText, cipherText, previous, ivBlock);
    }

    /**
     * aesbs_ctr_xcrypt: every byte of input XORed with the key stream of
     * encrypted counter blocks, a trailing partial block included; nextIv
     * receives the counter block after the whole blocks (the partial block
     * does not advance it).
     */
    method CtrXcrypt(textsize: nat, out: array<bv8>, input: array<bv8>, nextIv: array<bv8>, iv: array<bv8>)
      requires Ready()
      requires textsize <= input.Length && textsize <= out.Length && 16 <= nextIv.Length && 16 <= iv.Length
      requires nextIv != out
      modifies out, nextIv
      ensures out[..textsize] == Ctr(encrypt, old(iv[..16]), old(input[..textsize]))
      ensures out[textsize..] == old(out[textsize..])
      ensures nextIv[..16] == CounterAfter(old(iv[..16]), textsize / 16)
      ensures nextIv[16..] == old(nextIv[16..])
    {
      ghost var ctr: Block := iv[..16];
      var ivState := StoreBytes(iv, 0);
      UnpackPack(ctr);
      var nr := KeySizeToNr(keySize);
      var roundKeys := encRoundKeys[..];  // the local copy of the round keys
      EncryptsSame(encrypt, schedule, KeySizeToNr(keySize), encrypt, roundKeys, nr);
      ivState := CtrBytes(nr, roundKeys, encrypt, textsize, out, input, ivState, ctr);
      ghost var before := nextIv[..];
      Save(nextIv, 0, ivState);
      KeepOutside(before, before, nextIv[..], 0, 16);
    }
  }

  /**
   * With a context set up by aesbs_init, ECB and CBC decryption undo ECB and
   * CBC encryption of whole blocks, and CTR with the same counter block
   * applied twice gives the input back.
   */
  lemma ModeRoundTrips(ctx: Context, iv: Block, p: seq<bv8>, x: seq<bv8>)
    requires ctx.Ready() && |p| % 16 == 0
    ensures InvEcb(ctx.decrypt, Ecb(ctx.encrypt, p)) == p
    ensures InvCbc(ctx.decrypt, iv, Cbc(ctx.encrypt, iv, p)) == p
    ensures Ctr(ctx.encrypt, iv, Ctr(ctx.encrypt, iv, x)) == x
  {
    var nr := KeySizeToNr(ctx.keySize);
    EcbInverse(ctx.encrypt, ctx.decrypt, ctx.schedule, nr, p);
    CbcInverse(ctx.encrypt, ctx.decrypt, ctx.schedule, nr, iv, p);
    CtrInvolution(ctx.encrypt, iv, x);
  }
}
