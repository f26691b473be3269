/**
 * The three modes of operation, stated for any block function on 16-byte
 * blocks: electronic codebook (NIST SP 800-38A, section 6.1), cipher block
 * chaining (section 6.2) and counter mode (section 6.5) with this library's
 * counter, which only ever changes byte 15 of the counter block.
 *
 * The bitsliced cipher is one instance (BlockFunction.Encryptor); the round trips
 * below only need that decryption undoes encryption block by block.
 */
module BlockModes {

  /** Sixteen bytes, the unit every mode works in. */
  type Block = b: seq<bv8> | |b| == 16 witness [0, 0, 0, 0, 0, 0, 0, 0, 0, 0, 0, 0, 0, 0, 0, 0]

  /** The bytewise exclusive or of a with the first |a| bytes of b. */
  function XorBytes(a: seq<bv8>, b: seq<bv8>): (r: seq<bv8>)
    requires |a| <= |b|
    ensures |r| == |a|
  {
    seq(|a|, (k: int) requires 0 <= k < |a| => a[k] ^ b[k])
  }

  /** XORing the same bytes in twice gives back the original bytes. */
  lemma XorBytesTwice(a: seq<bv8>, b: seq<bv8>)
    requires |a| <= |b|
    ensures XorBytes(XorBytes(a, b), b) == a
  {
    forall k | 0 <= k < |a|
      ensures XorBytes(XorBytes(a, b), b)[k] == a[k]
    {
      var x, y := a[k], b[k];
      assert x ^ y ^ y == x;
    }
  }

  /** t bytes are t / 16 whole blocks and t % 16 bytes more. */
  lemma BlocksAndRest(t: nat)
    ensures 16 * (t / 16) + t % 16 == t && t % 16 < 16 && t / 16 * 16 == 16 * (t / 16)
  {
  }

  /** 16 * n bytes are exactly n whole blocks. */
  lemma WholeBlocks(n: nat)
    ensures (16 * n) % 16 == 0 && (16 * n) / 16 == n
  {
  }

  /** Block n of a sequence is what follows the first n blocks in its first n + 1 blocks. */
  lemma PrefixSplit(p: seq<bv8>, n: nat)
    requires 16 * (n + 1) <= |p|
    ensures p[..16 * (n + 1)][..16 * n] == p[..16 * n]
    ensures p[..16 * (n + 1)][16 * n..] == p[16 * n..16 * (n + 1)]
  {
  }

  /** A buffer whose first n blocks were kept and whose block n was then set holds the n + 1 blocks in order. */
  lemma AppendBlock(before: seq<bv8>, after: seq<bv8>, n: nat, b: Block)
    requires |before| == |after| && 16 * (n + 1) <= |after|
    requires after[..16 * n] == before[..16 * n]
    requires after[16 * n..16 * (n + 1)] == b
    ensures after[..16 * (n + 1)] == before[..16 * n] + b
  {
    assert after[..16 * (n + 1)] == after[..16 * n] + after[16 * n..16 * (n + 1)];
  }

  // ---------------------------------------------------------------- ECB

  /** Electronic codebook on whole blocks: every block is encrypted on its own. */
  function Ecb(enc: Block -> Block, p: seq<bv8>): (c: seq<bv8>)
    requires |p| % 16 == 0
    ensures |c| == |p|
    decreases |p|
  {
    if |p| == 0 then [] else Ecb(enc, p[..|p| - 16]) + enc(p[|p| - 16..])
  }

  /** Electronic codebook decryption: the same block-by-block walk, with the decryption as the block function. */
  function InvEcb(dec: Block -> Block, c: seq<bv8>): (p: seq<bv8>)
    requires |c| % 16 == 0
    ensures |p| == |c|
  {
    Ecb(dec, c)
  }

  /** When dec undoes enc on every block, ECB decryption undoes ECB encryption. */
  lemma {:induction false} EcbRoundTrip(enc: Block -> Block, dec: Block -> Block, p: seq<bv8>)
    requires forall b: Block :: dec(enc(b)) == b
    requires |p| % 16 == 0
    ensures InvEcb(dec, Ecb(enc, p)) == p
    decreases |p|
  {
    if |p| > 0 {
      var p0, last := p[..|p| - 16], p[|p| - 16..];
      var c := Ecb(enc, p);
      assert c[..|c| - 16] == Ecb(enc, p0);
      assert c[|c| - 16..] == enc(last);
      EcbRoundTrip(enc, dec, p0);
      assert p == p0 + last;
    }
  }

  /** Block i of the ECB encryption is the encryption of block i alone, whatever the other blocks hold. */
  lemma {:induction false} EcbBlock(enc: Block -> Block, p: seq<bv8>, i: nat)
    requires |p| % 16 == 0 && 16 * (i + 1) <= |p|
    ensures Ecb(enc, p)[16 * i..16 * (i + 1)] == enc(p[16 * i..16 * (i + 1)])
    decreases |p|
  {
    var p0 := p[..|p| - 16];
    if 16 * (i + 1) < |p| {
      EcbBlock(enc, p0, i);
      assert Ecb(enc, p)[16 * i..16 * (i + 1)] == Ecb(enc, p0)[16 * i..16 * (i + 1)];
      assert p0[16 * i..16 * (i + 1)] == p[16 * i..16 * (i + 1)];
    } else {
      assert p[16 * i..16 * (i + 1)] == p[|p| - 16..];
      assert Ecb(enc, p)[16 * i..16 * (i + 1)] == enc(p[|p| - 16..]);
    }
  }

  /** Encrypting one more block appends its encryption. */
  lemma EcbStep(enc: Block -> Block, p: seq<bv8>, n: nat)
    requires 16 * (n + 1) <= |p|
    ensures Ecb(enc, p[..16 * (n + 1)]) == Ecb(enc, p[..16 * n]) + enc(p[16 * n..16 * (n + 1)])
  {
    PrefixSplit(p, n);
  }

  /** Decrypting one more block appends its decryption. */
  lemma InvEcbStep(dec: Block -> Block, c: seq<bv8>, n: nat)
    requires 16 * (n + 1) <= |c|
    ensures InvEcb(dec, c[..16 * (n + 1)]) == InvEcb(dec, c[..16 * n]) + dec(c[16 * n..16 * (n + 1)])
  {
    EcbStep(dec, c, n);
  }

  // ---------------------------------------------------------------- CBC

  /** The block chained into the next one: the last block of c, or the iv while c is empty. */
  function LastBlock(iv: Block, c: seq<bv8>): (b: Block)
    requires |c| % 16 == 0
    ensures |c| > 0 ==> b == c[|c| - 16..]
  {
    if |c| == 0 then iv else c[|c| - 16..]
  }

  /** Cipher block chaining: each block is encrypted after XOR with the previous ciphertext block, the iv before the first. */
  function Cbc(enc: Block -> Block, iv: Block, p: seq<bv8>): (c: seq<bv8>)
    requires |p| % 16 == 0
    ensures |c| == |p|
    decreases |p|
  {
    if |p| == 0 then []
    else
      var c0 := Cbc(enc, iv, p[..|p| - 16]);
      c0 + enc(XorBytes(p[|p| - 16..], LastBlock(iv, c0)))
  }

  /** Cipher block chaining decryption: each block is decrypted, then XORed with the previous ciphertext block or the iv. */
  function InvCbc(dec: Block -> Block, iv: Block, c: seq<bv8>): (p: seq<bv8>)
    requires |c| % 16 == 0
    ensures |p| == |c|
    decreases |c|
  {
    if |c| == 0 then []
    else
      var c0 := c[..|c| - 16];
      InvCbc(dec, iv, c0) + XorBytes(dec(c[|c| - 16..]), LastBlock(iv, c0))
  }

  /** When dec undoes enc on every block, CBC decryption with the same iv undoes CBC encryption. */
  lemma {:induction false} CbcRoundTrip(enc: Block -> Block, dec: Block -> Block, iv: Block, p: seq<bv8>)
    requires forall b: Block :: dec(enc(b)) == b
    requires |p| % 16 == 0
    ensures InvCbc(dec, iv, Cbc(enc, iv, p)) == p
    decreases |p|
  {
    if |p| > 0 {
      var p0, last := p[..|p| - 16], p[|p| - 16..];
      var c0 := Cbc(enc, iv, p0);
      var x := XorBytes(last, LastBlock(iv, c0));
      var c := Cbc(enc, iv, p);
      assert c[..|c| - 16] == c0;
      assert c[|c| - 16..] == enc(x);
      CbcRoundTrip(enc, dec, iv, p0);
      XorBytesTwice(last, LastBlock(iv, c0));
      assert p == p0 + last;
    }
  }

  /** Encrypting the first n blocks gives the first n blocks of the ciphertext. */
  lemma {:induction false} CbcPrefix(enc: Block -> Block, iv: Block, p: seq<bv8>, n: nat)
    requires |p| % 16 == 0 && 16 * n <= |p|
    ensures Cbc(enc, iv, p)[..16 * n] == Cbc(enc, iv, p[..16 * n])
    decreases |p|
  {
    if 16 * n < |p| {
      var p0 := p[..|p| - 16];
      CbcPrefix(enc, iv, p0, n);
      assert p0[..16 * n] == p[..16 * n];
    } else {
      assert p[..16 * n] == p;
    }
  }

  /** Ciphertext block i is the encryption of plaintext block i XOR ciphertext block i - 1, or XOR the iv for block 0. */
  lemma CbcBlock(enc: Block -> Block, iv: Block, p: seq<bv8>, i: nat)
    requires |p| % 16 == 0 && 16 * (i + 1) <= |p|
    ensures Cbc(enc, iv, p)[16 * i..16 * (i + 1)]
            == enc(XorBytes(p[16 * i..16 * (i + 1)], LastBlock(iv, Cbc(enc, iv, p)[..16 * i])))
  {
    var c := Cbc(enc, iv, p);
    var c0 := Cbc(enc, iv, p[..16 * i]);
    var b := enc(XorBytes(p[16 * i..16 * (i + 1)], LastBlock(iv, c0)));
    CbcStep(enc, iv, p, i);
    CbcPrefix(enc, iv, p, i + 1);
    CbcPrefix(enc, iv, p, i);
    assert c[..16 * (i + 1)] == c0 + b;
    assert c[16 * i..16 * (i + 1)] == (c0 + b)[16 * i..];
  }

  /** Encrypting one more block appends the encryption of that block XOR the last ciphertext block. */
  lemma CbcStep(enc: Block -> Block, iv: Block, p: seq<bv8>, n: nat)
    requires 16 * (n + 1) <= |p|
    ensures Cbc(enc, iv, p[..16 * (n + 1)])
            == Cbc(enc, iv, p[..16 * n]) + enc(XorBytes(p[16 * n..16 * (n + 1)], LastBlock(iv, Cbc(enc, iv, p[..16 * n]))))
  {
    PrefixSplit(p, n);
  }

  /** Decrypting one more block appends its decryption XOR the ciphertext block before it (or the iv). */
  lemma InvCbcStep(dec: Block -> Block, iv: Block, c: seq<bv8>, n: nat)
    requires 16 * (n + 1) <= |c|
    ensures InvCbc(dec, iv, c[..16 * (n + 1)])
            == InvCbc(dec, iv, c[..16 * n]) + XorBytes(dec(c[16 * n..16 * (n + 1)]), LastBlock(iv, c[..16 * n]))
  {
    PrefixSplit(c, n);
  }

  // ---------------------------------------------------------------- CTR

  /**
   * One step of the counter: byte 15 of the counter block goes up by one
   * modulo 256 and no other byte changes.
   */
  function Increment(ctr: Block): (r: Block)
  {
    ctr[15 := ctr[15] + 1]
  }

  /** The counter block after n increments. */
  function CounterAfter(ctr: Block, n: nat): (r: Block)
  {
    if n == 0 then ctr else Increment(CounterAfter(ctr, n - 1))
  }

  /** One increment adds one modulo 256 to byte 15 and leaves the other fifteen bytes alone. */
  lemma IncrementByte(b: Block)
    ensures Increment(b)[..15] == b[..15]
    ensures Increment(b)[15] as int == (b[15] as int + 1) % 256
  {
  }

  lemma ModSucc(a: int)
    ensures (a % 256 + 1) % 256 == (a + 1) % 256
  {
  }

  /** n increments add n modulo 256 to byte 15 and leave the other fifteen bytes alone. */
  lemma {:induction false} CounterAfterByte(ctr: Block, n: nat)
    ensures CounterAfter(ctr, n)[..15] == ctr[..15]
    ensures CounterAfter(ctr, n)[15] as int == (ctr[15] as int + n) % 256
  {
    if n > 0 {
      var before := CounterAfter(ctr, n - 1);
      CounterAfterByte(ctr, n - 1);
      IncrementByte(before);
      ModSucc(ctr[15] as int + n - 1);
    }
  }

  /**
   * Counter mode on any number of bytes: the first block, or the fewer than
   * 16 bytes that remain, is XORed with the encryption of ctr; the bytes
   * after it are processed from the incremented counter block.
   */
  function Ctr(enc: Block -> Block, ctr: Block, x: seq<bv8>): (y: seq<bv8>)
    ensures |y| == |x|
    decreases |x|
  {
    if |x| < 16 then XorBytes(x, enc(ctr))
    else XorBytes(x[..16], enc(ctr)) + Ctr(enc, Increment(ctr), x[16..])
  }

  /** Counting n steps from the incremented block is counting n + 1 steps. */
  lemma {:induction false} CounterAfterShift(ctr: Block, n: nat)
    ensures CounterAfter(Increment(ctr), n) == CounterAfter(ctr, n + 1)
  {
    if n > 0 {
      CounterAfterShift(ctr, n - 1);
    }
  }

  /** A single whole block is XORed with the encryption of the counter block. */
  lemma CtrBlock(enc: Block -> Block, ctr: Block, b: Block)
    ensures Ctr(enc, ctr, b) == XorBytes(b, enc(ctr))
  {
    assert b[..16] == b;
    assert Ctr(enc, Increment(ctr), b[16..]) == [];
  }

  /** At least one whole block: the first block, then the rest from the incremented counter block. */
  lemma CtrFirst(enc: Block -> Block, ctr: Block, x: seq<bv8>)
    requires 16 <= |x|
    ensures Ctr(enc, ctr, x) == XorBytes(x[..16], enc(ctr)) + Ctr(enc, Increment(ctr), x[16..])
  {
  }

  /**
   * Counter mode over n whole blocks a followed by b: the bytes of b are
   * processed from the counter block after n steps.
   */
  lemma {:induction false} CtrAppend(enc: Block -> Block, ctr: Block, a: seq<bv8>, b: seq<bv8>, n: nat)
    requires |a| == 16 * n
    ensures Ctr(enc, ctr, a + b) == Ctr(enc, ctr, a) + Ctr(enc, CounterAfter(ctr, n), b)
    decreases n
  {
    if n == 0 {
      assert a + b == b && a == [];
      assert Ctr(enc, ctr, []) == [];
    } else {
      var a1 := a[16..];
      CtrAppend(enc, Increment(ctr), a1, b, n - 1);
      CounterAfterShift(ctr, n - 1);
      assert (a + b)[..16] == a[..16] && (a + b)[16..] == a1 + b;
      CtrFirst(enc, ctr, a + b);
      CtrFirst(enc, ctr, a);
    }
  }

  /**
   * Counter mode splits at any block boundary: the bytes after the first n
   * blocks are processed from the counter block after n steps.
   */
  lemma CtrSplit(enc: Block -> Block, ctr: Block, x: seq<bv8>, n: nat)
    requires 16 * n <= |x|
    ensures Ctr(enc, ctr, x) == Ctr(enc, ctr, x[..16 * n]) + Ctr(enc, CounterAfter(ctr, n), x[16 * n..])
  {
    assert x == x[..16 * n] + x[16 * n..];
    CtrAppend(enc, ctr, x[..16 * n], x[16 * n..], n);
  }

  /** Processing one more whole block appends that block XORed with the encryption of the counter after n steps. */
  lemma CtrStep(enc: Block -> Block, ctr: Block, x: seq<bv8>, n: nat)
    requires 16 * (n + 1) <= |x|
    ensures Ctr(enc, ctr, x[..16 * (n + 1)])
            == Ctr(enc, ctr, x[..16 * n]) + XorBytes(x[16 * n..16 * (n + 1)], enc(CounterAfter(ctr, n)))
  {
    var q := x[..16 * (n + 1)];
    CtrSplit(enc, ctr, q, n);
    assert q[..16 * n] == x[..16 * n];
    assert q[16 * n..] == x[16 * n..16 * (n + 1)];
    CtrBlock(enc, CounterAfter(ctr, n), x[16 * n..16 * (n + 1)]);
  }

  /** CTR is its own inverse: applying it twice with the same block function and counter gives the input back. */
  lemma {:induction false} CtrInvolution(enc: Block -> Block, ctr: Block, x: seq<bv8>)
    ensures Ctr(enc, ctr, Ctr(enc, ctr, x)) == x
    decreases |x|
  {
    var s := enc(ctr);
    var y := Ctr(enc, ctr, x);
    if |x| < 16 {
      XorBytesTwice(x, s);
    } else {
      assert y[..16] == XorBytes(x[..16], s);
      assert y[16..] == Ctr(enc, Increment(ctr), x[16..]);
      CtrInvolution(enc, Increment(ctr), x[16..]);
      XorBytesTwice(x[..16], s);
      assert x == x[..16] + x[16..];
    }
  }
}
