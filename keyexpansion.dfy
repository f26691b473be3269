/**
 * The key expansion of FIPS 197, section 5.2, on bytes: the reference the
 * bitsliced key schedule is proved against.
 *
 * A word is four bytes.  The expanded key is a sequence of words w[0], w[1],
 * ...; the first Nk are the key itself and every later one is w[i - Nk]
 * XOR a transformation of w[i - 1].
 */
module KeyExpansion {
  import opened SubBytesCircuit

  /** Multiplication by x in GF(2^8) modulo x^8 + x^4 + x^3 + x + 1 (FIPS 197, 4.2.1). */
  function XTime(b: bv8): bv8
  {
    (b << 1) ^ (if b & 0x80 == 0 then 0 else 0x1b)
  }

  /** The first byte of the round constant Rcon[j] = [x^(j-1), 0, 0, 0]. */
  function Rcon(j: nat): bv8
    requires 1 <= j
  {
    if j == 1 then 0x01 else XTime(Rcon(j - 1))
  }

  /** The ten round constants AES uses (FIPS 197, 5.2). */
  lemma RconValues()
    ensures Rcon(1) == 0x01 && Rcon(2) == 0x02 && Rcon(3) == 0x04 && Rcon(4) == 0x08 && Rcon(5) == 0x10
    ensures Rcon(6) == 0x20 && Rcon(7) == 0x40 && Rcon(8) == 0x80 && Rcon(9) == 0x1b && Rcon(10) == 0x36
  {
    assert Rcon(8) == 0x80;
  }

  /** The S-box of FIPS 197, Figure 7, as one table: entry 16x + y is row x, column y. */
  function SboxTable(): (t: seq<bv8>)
    ensures |t| == 256
  {
    seq(256, k requires 0 <= k < 256 => SboxRow((k / 16) as bv4)[(k % 16) as bv4])
  }

  function SubByte(b: bv8): bv8
  {
    SboxTable()[b]
  }

  /** Entry 16x + y of the table is row x, column y of Figure 7. */
  lemma TableEntry(x: bv4, y: bv4)
    ensures SboxTable()[16 * (x as int) + (y as int)] == SboxRow(x)[y]
  {
    var k := 16 * (x as int) + (y as int);
    assert k / 16 == x as int && k % 16 == y as int;
  }

  lemma ByteSplit(b: bv8)
    ensures b as int == 16 * (((b >> 4) as bv4) as int) + (((b & 15) as bv4) as int)
  {
  }

  /** The table is the S-box the bitsliced circuit computes. */
  lemma SubByteIsSbox(b: bv8)
    ensures SubByte(b) == Sbox(b)
  {
    var x, y := (b >> 4) as bv4, (b & 15) as bv4;
    ByteSplit(b);
    TableEntry(x, y);
    assert b == ((x as bv8) << 4) | (y as bv8);
    SboxMatchesTable(x, y);
  }

  /** SubWord: the S-box applied to each byte of a word. */
  function SubWord(w: seq<bv8>): (r: seq<bv8>)
    requires |w| == 4
    ensures |r| == 4
  {
    [SubByte(w[0]), SubByte(w[1]), SubByte(w[2]), SubByte(w[3])]
  }

  /** SubWord with the S-box of the bitsliced circuit. */
  lemma SubWordIsSbox(w: seq<bv8>)
    requires |w| == 4
    ensures SubWord(w) == [Sbox(w[0]), Sbox(w[1]), Sbox(w[2]), Sbox(w[3])]
  {
    SubByteIsSbox(w[0]);
    SubByteIsSbox(w[1]);
    SubByteIsSbox(w[2]);
    SubByteIsSbox(w[3]);
  }

  /** RotWord: [a0, a1, a2, a3] becomes [a1, a2, a3, a0]. */
  function RotWordBytes(w: seq<bv8>): (r: seq<bv8>)
    requires |w| == 4
    ensures |r| == 4
  {
    [w[1], w[2], w[3], w[0]]
  }

  function XorWord(a: seq<bv8>, b: seq<bv8>): (r: seq<bv8>)
    requires |a| == 4 && |b| == 4
    ensures |r| == 4
  {
    [a[0] ^ b[0], a[1] ^ b[1], a[2] ^ b[2], a[3] ^ b[3]]
  }

  /** w[i] of the expansion of a key of nk words. */
  function ExpandedWord(key: seq<bv8>, nk: nat, i: nat): (w: seq<bv8>)
    requires 1 <= nk && |key| == 4 * nk
    ensures |w| == 4
    ensures i < nk ==> w == key[4 * i..4 * i + 4]
  {
    if i < nk then key[4 * i..4 * i + 4]
    else XorWord(ExpandedWord(key, nk, i - nk), Transform(ExpandedWord(key, nk, i - 1), nk, i))
  }

  /**
   * The word XORed into w[i - nk] to give w[i], from temp = w[i - 1]: temp
   * itself, or, at the start of each group of nk words,
   * SubWord(RotWord(temp)) XOR Rcon[i / nk], or, for keys of more than six
   * words, SubWord(temp) in the middle of the group.
   */
  function Transform(temp: seq<bv8>, nk: nat, i: nat): (w: seq<bv8>)
    requires |temp| == 4 && 1 <= nk <= i
    ensures |w| == 4
  {
    if Rem(i, nk) == 0 then XorWord(SubWord(RotWordBytes(temp)), [Rcon(Quot(i, nk)), 0, 0, 0])
    else if nk > 6 && Rem(i, nk) == 4 then SubWord(temp)
    else temp
  }

  /** i mod n, counted by whole groups of n. */
  function Rem(i: nat, n: nat): (r: nat)
    requires 1 <= n
    ensures r < n
    decreases i
  {
    if i < n then i else Rem(i - n, n)
  }

  /** i div n: the number of whole groups of n before i. */
  function Quot(i: nat, n: nat): nat
    requires 1 <= n
    decreases i
  {
    if i < n then 0 else Quot(i - n, n) + 1
  }

  /** One step further, the position in the group moves on, or wraps to the start of the next group. */
  lemma {:induction false} RemSucc(i: nat, n: nat)
    requires 1 <= n
    ensures Rem(i, n) + 1 == n ==> Rem(i + 1, n) == 0 && Quot(i + 1, n) == Quot(i, n) + 1
    ensures Rem(i, n) + 1 < n ==> Rem(i + 1, n) == Rem(i, n) + 1 && Quot(i + 1, n) == Quot(i, n)
    decreases i
  {
    if i >= n {
      RemSucc(i - n, n);
    } else if i + 1 == n {
      assert Rem(i + 1, n) == Rem(0, n);
    }
  }

  /** The first `words` words of the expanded key. */
  function ExpandedKey(key: seq<bv8>, nk: nat, words: nat): (e: seq<seq<bv8>>)
    requires 1 <= nk && |key| == 4 * nk
    ensures |e| == words && forall w :: 0 <= w < words ==> |e[w]| == 4
  {
    seq(words, w requires 0 <= w < words => ExpandedWord(key, nk, w))
  }

  /** Word i of e is word i of the key. */
  predicate KeyWord(e: seq<seq<bv8>>, key: seq<bv8>, i: nat)
  {
    i < |e| && 4 * i + 4 <= |key| && e[i] == key[4 * i..4 * i + 4]
  }

  /** Word i of e is the word nk back XOR the transformed word before it. */
  predicate Follows(e: seq<seq<bv8>>, nk: nat, i: nat)
  {
    && 1 <= nk <= i < |e| && |e[i - 1]| == 4 && |e[i - nk]| == 4
    && e[i] == XorWord(e[i - nk], Transform(e[i - 1], nk, i))
  }

  lemma ExpandedKeyWord(key: seq<bv8>, nk: nat, words: nat, w: nat)
    requires 1 <= nk && |key| == 4 * nk && w < words
    ensures ExpandedKey(key, nk, words)[w] == ExpandedWord(key, nk, w)
  {
  }

  lemma ExpandedKeyStart(key: seq<bv8>, nk: nat, words: nat, i: nat)
    requires 1 <= nk && |key| == 4 * nk && i < nk && i < words
    ensures KeyWord(ExpandedKey(key, nk, words), key, i)
  {
  }

  lemma {:induction false} ExpandedKeyNext(key: seq<bv8>, nk: nat, words: nat, i: nat)
    requires 1 <= nk <= i < words && |key| == 4 * nk
    ensures Follows(ExpandedKey(key, nk, words), nk, i)
  {
    ExpandedKeyWord(key, nk, words, i);
    ExpandedKeyWord(key, nk, words, i - 1);
    ExpandedKeyWord(key, nk, words, i - nk);
  }

  /**
   * The 4 * (nr + 1) words of the expansion of a key of nk words for nr
   * rounds: the key itself, then every word following from the two before
   * it as section 5.2 of FIPS 197 says; round key j is words 4j to 4j + 3.
   */
  lemma {:induction false} ExpandKey(key: seq<bv8>, nk: nat, nr: nat) returns (e: seq<seq<bv8>>)
    requires 1 <= nk && |key| == 4 * nk
    ensures |e| == 4 * (nr + 1) && forall w :: 0 <= w < |e| ==> |e[w]| == 4
    ensures forall i :: 0 <= i < nk && i < |e| ==> KeyWord(e, key, i)
    ensures forall i :: nk <= i < |e| ==> Follows(e, nk, i)
    ensures forall j :: 0 <= j <= nr ==> RoundKey(key, nk, nr, j) == e[4 * j] + e[4 * j + 1] + e[4 * j + 2] + e[4 * j + 3]
  {
    var words := 4 * (nr + 1);
    e := ExpandedKey(key, nk, words);
    forall i | 0 <= i < nk && i < words
      ensures KeyWord(e, key, i)
    {
      ExpandedKeyStart(key, nk, words, i);
    }
    forall i | nk <= i < words
      ensures Follows(e, nk, i)
    {
      ExpandedKeyNext(key, nk, words, i);
    }
  }

  /** Round key j: words 4j to 4j + 3 of the expanded key, sixteen bytes in column order. */
  function RoundKey(key: seq<bv8>, nk: nat, nr: nat, j: nat): (r: seq<bv8>)
    requires 1 <= nk && |key| == 4 * nk && j <= nr
    ensures |r| == 16
  {
    var e := ExpandedKey(key, nk, 4 * (nr + 1));
    e[4 * j] + e[4 * j + 1] + e[4 * j + 2] + e[4 * j + 3]
  }

  /** Byte 4c + r of four 4-byte words laid end to end is byte r of word c. */
  lemma ConcatByte(a: seq<bv8>, b: seq<bv8>, c: seq<bv8>, d: seq<bv8>, col: nat, row: nat)
    requires |a| == |b| == |c| == |d| == 4 && col < 4 && row < 4
    ensures (a + b + c + d)[4 * col + row] == [a, b, c, d][col][row]
  {
  }

  /** Round key 0 is the first sixteen bytes of the key, which has at least four words. */
  lemma FirstRoundKey(key: seq<bv8>, nk: nat, nr: nat)
    requires 4 <= nk && |key| == 4 * nk
    ensures RoundKey(key, nk, nr, 0) == key[..16]
  {
    var e := ExpandedKey(key, nk, 4 * (nr + 1));
    ExpandedKeyStart(key, nk, 4 * (nr + 1), 0);
    ExpandedKeyStart(key, nk, 4 * (nr + 1), 1);
    ExpandedKeyStart(key, nk, 4 * (nr + 1), 2);
    ExpandedKeyStart(key, nk, 4 * (nr + 1), 3);
    assert key[..16] == key[0..4] + key[4..8] + key[8..12] + key[12..16];
  }
}
