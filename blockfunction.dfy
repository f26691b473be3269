/**
 * The bitsliced block cipher as a function on 16-byte blocks, and what it
 * means for a block function of the modes to be that cipher.
 */
module BlockFunction {
  import opened Bitslice
  import opened Packing
  import opened BlockCipher
  import opened BlockModes

  /** The cipher of one block under round keys w: pack the bytes, run the rounds, read the bytes back. */
  function EncryptBlock(w: seq<State>, nr: nat, p: Block): Block
    requires 1 <= nr < |w|
  {
    Unpack(Cipher(w, nr, Pack(p)))
  }

  /** The inverse cipher of one block under the same round keys. */
  function DecryptBlock(w: seq<State>, nr: nat, c: Block): Block
    requires 1 <= nr < |w|
  {
    Unpack(InvCipher(w, nr, Pack(c)))
  }

  /**
   * enc is the block cipher with round keys w.  The quantifier only fires on
   * EncryptBlock terms, so code that merely passes enc around never sees the
   * rounds behind it.
   */
  ghost predicate Encrypts(enc: Block -> Block, w: seq<State>, nr: nat)
    requires 1 <= nr < |w|
  {
    forall b: Block {:trigger EncryptBlock(w, nr, b)} :: enc(b) == EncryptBlock(w, nr, b)
  }

  /** dec is the inverse block cipher with round keys w. */
  ghost predicate Decrypts(dec: Block -> Block, w: seq<State>, nr: nat)
    requires 1 <= nr < |w|
  {
    forall c: Block {:trigger DecryptBlock(w, nr, c)} :: dec(c) == DecryptBlock(w, nr, c)
  }

  /** The block cipher with round keys w as a block function. */
  function Encryptor(w: seq<State>, nr: nat): (enc: Block -> Block)
    requires 1 <= nr < |w|
    ensures Encrypts(enc, w, nr)
  {
    (p: Block) => EncryptBlock(w, nr, p)
  }

  /** The inverse block cipher with round keys w as a block function. */
  function Decryptor(w: seq<State>, nr: nat): (dec: Block -> Block)
    requires 1 <= nr < |w|
    ensures Decrypts(dec, w, nr)
  {
    (c: Block) => DecryptBlock(w, nr, c)
  }

  /** Encrypts read through equal block functions, round keys and round counts. */
  lemma EncryptsSame(enc: Block -> Block, w: seq<State>, nr: nat, enc2: Block -> Block, w2: seq<State>, nr2: nat)
    requires 1 <= nr < |w| && Encrypts(enc, w, nr)
    requires enc2 == enc && w2 == w && nr2 == nr
    ensures 1 <= nr2 < |w2| && Encrypts(enc2, w2, nr2)
  {
  }

  /** Decrypts read through equal block functions, round keys and round counts. */
  lemma DecryptsSame(dec: Block -> Block, w: seq<State>, nr: nat, dec2: Block -> Block, w2: seq<State>, nr2: nat)
    requires 1 <= nr < |w| && Decrypts(dec, w, nr)
    requires dec2 == dec && w2 == w && nr2 == nr
    ensures 1 <= nr2 < |w2| && Decrypts(dec2, w2, nr2)
  {
  }

  /** Decrypting an encrypted block with the same round keys gives the block back. */
  lemma BlockRoundTrip(w: seq<State>, nr: nat, p: Block)
    requires 1 <= nr < |w|
    ensures DecryptBlock(w, nr, EncryptBlock(w, nr, p)) == p
  {
    PackUnpack(Cipher(w, nr, Pack(p)));
    CipherInverse(w, nr, Pack(p));
    UnpackPack(p);
  }

  /** The inverse block cipher undoes the block cipher on every block. */
  lemma DecryptUndoesEncrypt(enc: Block -> Block, dec: Block -> Block, w: seq<State>, nr: nat)
    requires 1 <= nr < |w| && Encrypts(enc, w, nr) && Decrypts(dec, w, nr)
    ensures forall b: Block :: dec(enc(b)) == b
  {
    forall b: Block
      ensures dec(enc(b)) == b
    {
      BlockRoundTrip(w, nr, b);
    }
  }

  /** ECB decryption undoes ECB encryption under the same round keys. */
  lemma EcbInverse(enc: Block -> Block, dec: Block -> Block, w: seq<State>, nr: nat, p: seq<bv8>)
    requires 1 <= nr < |w| && Encrypts(enc, w, nr) && Decrypts(dec, w, nr)
    requires |p| % 16 == 0
    ensures InvEcb(dec, Ecb(enc, p)) == p
  {
    DecryptUndoesEncrypt(enc, dec, w, nr);
    EcbRoundTrip(enc, dec, p);
  }

  /** CBC decryption undoes CBC encryption under the same round keys and iv. */
  lemma CbcInverse(enc: Block -> Block, dec: Block -> Block, w: seq<State>, nr: nat, iv: Block, p: seq<bv8>)
    requires 1 <= nr < |w| && Encrypts(enc, w, nr) && Decrypts(dec, w, nr)
    requires |p| % 16 == 0
    ensures InvCbc(dec, iv, Cbc(enc, iv, p)) == p
  {
    DecryptUndoesEncrypt(enc, dec, w, nr);
    CbcRoundTrip(enc, dec, iv, p);
  }
}
