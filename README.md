# Bitsliced AES and the version-file scripts, in Dafny

This project models three parts of an AES library.

**The portable bitsliced AES (`src/aes-bs.c`).** A 16-byte block is held as
eight 16-bit slices. Slice i holds bit i of every byte, and the byte in row r,
column c of the AES state sits in lane 4r + c (module `Bitslice`; packing and
unpacking in `Packing`). The model covers each part of the source:

- the round functions: AddRoundKey and xor_state (`BlockCipher`), the SubBytes
  circuit in both directions (`SubBytesCircuit`), ShiftRows and the rotations
  (`Rotations`), MixColumns and its inverse (`MixColumnsLayer`);
- the block functions aesbs_enc_block and aesbs_dec_block (`BlockCipher`);
- the key schedule, with RotWord, get_column, multiply_by_x and
  key_setup_round_core (`KeySetup`), proved against the key expansion of
  section 5.2 of FIPS 197 written on bytes (`KeyExpansion`);
- the counter adder aesbs_add_bitslice and the increment (`CounterAdd`);
- the ECB, CBC and CTR loops (`ModeLoops`);
- the context with aesbs_init and the five mode functions (`Modes`).

Each mode is proved to write exactly what the mode of NIST SP 800-38A
(sections 6.1, 6.2 and 6.5) computes with the bitsliced cipher as its block
function. `BlockModes` defines those modes and proves their round trips, and
`BlockFunction` ties them to the cipher.

Every round function is proved, byte for byte, to be the transformation
FIPS 197 specifies, and to have an inverse. `ByteLayers` and `ColumnMixing`
write each transformation on 16-byte blocks, straight from the standard, and
prove that unpacking the bitsliced result gives it:

- SubBytes and InvSubBytes look every byte up in the tables of Figures 7
  and 14 (sections 5.1.1 and 5.3.2).
- ShiftRows and InvShiftRows move row r left and right by r columns
  (sections 5.1.2 and 5.3.1).
- MixColumns and InvMixColumns multiply every column by a(x) and a^-1(x)
  (sections 5.1.3 and 5.3.3). Each output column depends only on its own
  input column, and the two matrices are inverse to each other on bytes.
- AddRoundKey is the bytewise XOR with the round key (section 5.1.4).
- multiply_by_x is xtime (section 4.2.1).
- The key schedule leaves the round keys of section 5.2 in round keys 0 to Nr.

`ByteCipher` puts the byte transformations together into Cipher() and
InvCipher() of FIPS 197 (Figures 5 and 12). It proves that aesbs_enc_block and
aesbs_dec_block compute them on the unpacked bytes. With the round keys of the
key schedule, the block functions of the modes are the cipher and the inverse
cipher of the key. Decryption undoes encryption, on the state and on bytes.

`Linearity` and `UnitStates` hold proof tools rather than code: a map that
respects XOR and fixes every single-bit state fixes every state. The proof of
MixColumnsInverse uses them.

The functions that copy state by value are Dafny functions. The code that
changes buffers in place is made of methods over arrays: the key schedule on
the round-key array, the mode loops on the output buffers and next_iv, and
aesbs_init on the context object.

**The version writer (`scripts/write-new-version.py`).** The SemVer regular
expression is modelled as a scanner, `SemVer.Match`, that returns the named
groups. It is proved to accept exactly the strings of the Semantic Versioning
2.0.0 grammar (`SemVer.WellFormed`, `SemVer.Render`), with their parts as the
groups.

The body of `main` writes, field by field, to a file object whose content each
write extends (`VersionWriter`). The record it writes has seven fields, each
followed by `*`:

- the version twice;
- major, minor and patch;
- the pre-release, or the empty string;
- `0`.

Nothing follows the last `*`: the code (write-new-version.py:55-58) writes
`0*` and stops, so the record for 3.4.5 is `3.4.5*3.4.5*3*4*5**0*`. On
reading, the empty piece after the last `*` becomes the empty Git SHA.

**The version reader (`scripts/GetVersionFromFile.py`).** The file content,
read by the caller, is split on `*`. The pieces are then converted in the
order of the dictionary literal. The first missing piece (IndexError) or the
first failed `int()` (ValueError) is the outcome (`VersionReader`). MINOR and
PATCH are converted only when the MAJOR piece is non-empty, as in the code.
Reading back what the writer wrote gives the version that was written
(`VersionReader.ReadWritten`).

## Model

| member | source | states |
|---|---|---|
| Packing.Transposition | src/aes-bs.c:50-73 | byte 4c + r of a block and lane 4r + c are the same place in both directions: the two tables are inverse to each other |
| Packing.StoreByteLanes | src/aes-bs.c:42-48 | store_byte_to_bitslice ORs the byte into lane 4 * row + column and leaves the other fifteen lanes as they were |
| Packing.StoreByteBytes | src/aes-bs.c:42-48 | in block terms: only byte 4 * column + row of the block changes, and it becomes its old value OR the byte |
| Packing.StoreBytes | src/aes-bs.c:50-60 | store_bytes_to_bitslice returns the packed form of the sixteen bytes at the offset: byte 4c + r in lane 4r + c |
| Packing.Save | src/aes-bs.c:62-73 | save_bitslice_to_bytes writes the block the state holds to dest[off..off + 16], and no other byte of dest changes |
| Packing.UnpackPack | src/aes-bs.c:50-73 | unpacking a packed block gives the same sixteen bytes back |
| Packing.PackUnpack | src/aes-bs.c:50-73 | packing the bytes read from a state gives the same state back |
| Bitslice.LanesDetermineState | src/aes-bs.h:10-12 | two states are equal exactly when every one of the 16 lanes holds the same byte in both |
| Bitslice.LaneIsHom | src/aes-bs.c:91-224 | reading one lane commutes with the slice-wide XOR, AND and NOT, so the lanes of a circuit never mix |
| BlockCipher.KeySizeToNr | src/aes-bs.c:605-616 | the result is non-zero exactly for the key sizes 128, 192 and 256, and then it is keySize / 32 + 6 rounds (10, 12, 14); anything else gives 0 |
| BlockCipher.AddRoundKeyLanes | src/aes-bs.c:32-40 | each byte of the result is the state byte XOR the round-key byte in the same lane, as in section 5.1.4 of FIPS 197 |
| BlockCipher.AddRoundKeyTwice | src/aes-bs.c:32-40 | adding the same round key twice gives the state back |
| BlockCipher.InvRoundUndoesRound | src/aes-bs.c:569-574 | an inverse round of aesbs_dec_block with the same round key takes the state after a round of aesbs_enc_block back to the state before it |
| BlockCipher.InvRoundsUndoRounds | src/aes-bs.c:543-581 | running the inverse rounds down from Nr undoes the rounds run up to Nr, for any round pair where one undoes the other |
| BlockCipher.CipherInverse | src/aes-bs.c:543-581 | the inverse cipher with the same round keys recovers every plaintext state |
| BlockCipher.EncBlock | src/aes-bs.c:543-561 | aesbs_enc_block returns Cipher: AddRoundKey with key 0, Nr - 1 full rounds, then a final round without MixColumns, in the order of section 5.1 of FIPS 197 (on bytes this is Cipher() of the standard: ByteCipher.CipherIsFips) |
| BlockCipher.DecBlock | src/aes-bs.c:563-581 | aesbs_dec_block returns InvCipher, the rounds of section 5.3 of FIPS 197 with the round keys used from Nr down to 0 (on bytes this is InvCipher() of the standard: ByteCipher.InvCipherIsFips) |
| SubBytesCircuit.CoreCommutes | src/aes-bs.c:75-328 | any map that respects XOR, AND and NOT commutes with the S-box circuit, in both directions |
| SubBytesCircuit.SubBytesLanes | src/aes-bs.c:330-338 | SubBytes and InvSubBytes substitute every lane on its own, each by the one-byte S-box or inverse S-box of that lane's byte |
| SubBytesCircuit.TableRows0 | src/aes-bs.c:75-333 | the forward circuit maps the bytes 0x00 to 0x3f to rows 0 to 3 of the S-box table of FIPS 197 |
| SubBytesCircuit.TableRows4 | src/aes-bs.c:75-333 | the forward circuit gives rows 4 to 7 of the S-box table |
| SubBytesCircuit.TableRows8 | src/aes-bs.c:75-333 | the forward circuit gives rows 8 to 11 of the S-box table |
| SubBytesCircuit.TableRows12 | src/aes-bs.c:75-333 | the forward circuit gives rows 12 to 15 of the S-box table |
| SubBytesCircuit.InvTableRows0 | src/aes-bs.c:75-338 | the inverse circuit gives rows 0 to 3 of the inverse S-box table of FIPS 197 |
| SubBytesCircuit.InvTableRows4 | src/aes-bs.c:75-338 | the inverse circuit gives rows 4 to 7 of the inverse S-box table |
| SubBytesCircuit.InvTableRows8 | src/aes-bs.c:75-338 | the inverse circuit gives rows 8 to 11 of the inverse S-box table |
| SubBytesCircuit.InvTableRows12 | src/aes-bs.c:75-338 | the inverse circuit gives rows 12 to 15 of the inverse S-box table |
| SubBytesCircuit.SboxMatchesTable | src/aes-bs.c:75-338 | the one-byte S-box maps 16x + y to row x, column y of Figure 7 of FIPS 197, the inverse S-box to the entry of Figure 14, and each undoes the other |
| SubBytesCircuit.SboxInverse | src/aes-bs.c:75-338 | the inverse S-box undoes the S-box on every byte, and the other way round |
| SubBytesCircuit.SubBytesInverse | src/aes-bs.c:330-338 | InvSubBytes(SubBytes(s)) == s and SubBytes(InvSubBytes(s)) == s for every state |
| Rotations.Rotate4Bits | src/aes-bs.c:347-353 | on a 4-bit value, rotl_4bit_u16 moves bit i + c (mod 4) down to bit i and rotr_4bit_u16 moves bit i up to bit i + c (mod 4), and both stay below 16 |
| Rotations.Rotate4Inverse | src/aes-bs.c:347-353 | on 4-bit values the two nibble rotations by the same amount undo each other |
| Rotations.ShiftRowsRowZero | src/aes-bs.c:355-381 | ShiftRows and InvShiftRows leave row 0 (bits 0 to 3 of every slice) unchanged |
| Rotations.ShiftRowsLanes | src/aes-bs.c:355-367 | after ShiftRows the byte in row r, column c is the one that was in column (c + r) mod 4 of the same row (section 5.1.2 of FIPS 197) |
| Rotations.InvShiftRowsLanes | src/aes-bs.c:369-381 | InvShiftRows moves the byte in row r, column (c + r) mod 4 back to column c |
| Rotations.ShiftRowsSliceInverse | src/aes-bs.c:355-381 | on one slice the two shifts undo each other in both orders |
| Rotations.ShiftRowsInverse | src/aes-bs.c:355-381 | InvShiftRows(ShiftRows(s)) == s and ShiftRows(InvShiftRows(s)) == s |
| Rotations.Rotate16 | src/aes-bs.c:383-394 | rotr16 by c moves bit y + (c & 15) down to bit y |
| Rotations.Rotate16Left | src/aes-bs.c:383-397 | rotl16 by c moves bit y up to bit y + (c & 15) |
| Rotations.Rotate16Inverse | src/aes-bs.c:383-397 | rotl16 undoes rotr16 by the same amount |
| Rotations.Rotate16InverseLeft | src/aes-bs.c:383-397 | rotr16 undoes rotl16 by the same amount |
| MixColumnsLayer.Commutes | src/aes-bs.c:494-541 | any map that respects XOR and the rotations by 4 and 8 commutes with MixColumns and InvMixColumns |
| MixColumnsLayer.Linear | src/aes-bs.c:494-541 | MixColumns and InvMixColumns distribute over the XOR of two states |
| MixColumnsLayer.UnitLow | src/aes-bs.c:494-541 | InvMixColumns undoes MixColumns on the states with a single bit set in slices 0 to 3 |
| MixColumnsLayer.UnitHigh | src/aes-bs.c:494-541 | the same for a single bit set in slices 4 to 7 |
| MixColumnsLayer.MixColumnsInverse | src/aes-bs.c:494-541 | InvMixColumns(MixColumns(s)) == s and MixColumns(InvMixColumns(s)) == s for every state |
| ColumnMixing.ColumnIsHom | src/aes-bs.c:494-541 | reading column c out of every slice commutes with XOR and with the rotations by 4 and 8, so the MixColumns circuit never mixes bits of different columns |
| ColumnMixing.ColMixBytes | src/aes-bs.c:494-517 | the MixColumns circuit restricted to one column multiplies that column by a(x) = {03}x^3 + {01}x^2 + {01}x + {02}, the matrix product of section 5.1.3 of FIPS 197 |
| ColumnMixing.MixColumnsColumn | src/aes-bs.c:494-517 | column c of the result of aesbs_MixColumns is the product with a(x) of column c of the input alone |
| ColumnMixing.MixColumnsIsFips | src/aes-bs.c:494-517 | the block aesbs_MixColumns leaves is MixColumns of section 5.1.3 of FIPS 197 applied to the block the input state holds |
| ColumnMixing.InvMixMixRow | src/aes-bs.c:519-541 | the combination {0e}, {0b}, {0d}, {09} of the four products with a(x) gives back the first byte of the column: a^-1(x) a(x) = 1 modulo x^4 + 1 |
| ColumnMixing.InvMixMixWord | src/aes-bs.c:494-541 | the matrix of section 5.3.3 of FIPS 197 undoes that of section 5.1.3 on every column |
| ColumnMixing.InvMixMixBytes | src/aes-bs.c:494-541 | InvMixColumns of FIPS 197 undoes MixColumns on every block |
| ColumnMixing.InvMixColumnsIsFips | src/aes-bs.c:519-541 | the block aesbs_InvMixColumns leaves is InvMixColumns of section 5.3.3 of FIPS 197 (each column times a^-1(x) = {0b}x^3 + {0d}x^2 + {09}x + {0e}) applied to the block the input state holds |
| ColumnMixing.MixInvMixBytes | src/aes-bs.c:494-541 | MixColumns of FIPS 197 undoes InvMixColumns on every block, so the two are inverse bijections |
| ByteLayers.InvSubByteIsInvSbox | src/aes-bs.c:75-338 | the inverse circuit's one-byte S-box is the lookup in the inverse S-box table of Figure 14 of FIPS 197 |
| ByteLayers.SubByteInverse | src/aes-bs.c:75-338 | the table lookups of Figures 7 and 14 undo each other on every byte |
| ByteLayers.SubBytesBlockInverse | src/aes-bs.c:330-338 | InvSubBytes of FIPS 197 undoes SubBytes on every block, and the other way round |
| ByteLayers.UnpackSubBytes | src/aes-bs.c:330-333 | the block aesbs_SubBytes leaves is every byte of the input block through the S-box table (section 5.1.1 of FIPS 197) |
| ByteLayers.UnpackInvSubBytes | src/aes-bs.c:335-338 | the block aesbs_InvSubBytes leaves is every byte through the inverse S-box table (section 5.3.2 of FIPS 197) |
| ByteLayers.ShiftRowsLane | src/aes-bs.c:355-367 | after aesbs_ShiftRows lane y = 4r + c holds the byte of lane 4r + (c + r) mod 4 |
| ByteLayers.InvShiftRowsLane | src/aes-bs.c:369-381 | after aesbs_InvShiftRows lane y = 4r + c holds the byte of lane 4r + (c - r) mod 4 |
| ByteLayers.UnpackShiftRows | src/aes-bs.c:355-367 | the block aesbs_ShiftRows leaves is ShiftRows of section 5.1.2 of FIPS 197: row r, column c takes the byte of row r, column (c + r) mod 4 |
| ByteLayers.UnpackInvShiftRows | src/aes-bs.c:369-381 | the block aesbs_InvShiftRows leaves is InvShiftRows of section 5.3.1 of FIPS 197: row r, column c takes the byte of row r, column (c - r) mod 4 |
| ByteLayers.ShiftRowsBlockInverse | src/aes-bs.c:355-381 | InvShiftRows of FIPS 197 undoes ShiftRows on every block, and the other way round |
| ByteCipher.UnpackAddRoundKey | src/aes-bs.c:32-40 | the block aesbs_AddRoundKey leaves is the bytewise XOR of the two blocks (section 5.1.4 of FIPS 197) |
| ByteCipher.AddRoundKeyBlockTwice | src/aes-bs.c:32-40 | on bytes, adding the same round key twice gives the block back |
| ByteCipher.UnpackRound | src/aes-bs.c:548-553 | one pass of the loop of aesbs_enc_block is a round of Cipher() of FIPS 197 on the bytes: SubBytes, ShiftRows, MixColumns, AddRoundKey |
| ByteCipher.UnpackInvRound | src/aes-bs.c:568-573 | one pass of the loop of aesbs_dec_block is a round of InvCipher() of FIPS 197 on the bytes: InvShiftRows, InvSubBytes, AddRoundKey, InvMixColumns |
| ByteCipher.UnpackRounds | src/aes-bs.c:543-553 | the block after the first round - 1 passes of the encryption loop is the byte-level rounds of FIPS 197 on the unpacked round keys |
| ByteCipher.UnpackInvRounds | src/aes-bs.c:563-574 | the block after the first round - 1 passes of the decryption loop is the byte-level inverse rounds on the unpacked round keys, used from Nr - 1 down |
| ByteCipher.CipherIsFips | src/aes-bs.c:543-561 | what aesbs_enc_block returns, read as bytes, is Cipher() of Figure 5 of FIPS 197 on the plaintext bytes with the round keys read as bytes |
| ByteCipher.InvCipherIsFips | src/aes-bs.c:563-581 | what aesbs_dec_block returns, read as bytes, is InvCipher() of Figure 12 of FIPS 197 on the ciphertext bytes with the round keys read as bytes |
| ByteCipher.EncryptBlockIsFips | src/aes-bs.c:543-561 | the block function the modes use (pack, aesbs_enc_block, unpack) is Cipher() of FIPS 197 on the block |
| ByteCipher.DecryptBlockIsFips | src/aes-bs.c:563-581 | the inverse block function the modes use is InvCipher() of FIPS 197 on the block |
| ByteCipher.FipsCipherInverse | src/aes-bs.c:543-581 | on bytes, InvCipher() with the same round keys undoes Cipher() for every block and every sequence of round keys |
| ByteCipher.FipsCipherAgree | src/aes-bs.c:543-561 | Cipher() with Nr rounds reads only round keys 0 to Nr: two key sequences that agree there give the same ciphertext |
| ByteCipher.FipsInvCipherAgree | src/aes-bs.c:563-581 | InvCipher() with Nr rounds reads only round keys 0 to Nr |
| ByteCipher.ScheduledCipherIsFips | src/aes-bs.c:457-581 | with the round keys the key schedule leaves in round_keys[0 .. Nr], the block functions are Cipher() and InvCipher() of FIPS 197 under the round keys of section 5.2 for the key, whatever round keys Nr + 1 onwards hold |
| CounterAdd.CarryCommutes | src/aes-bs.c:722-727 | the carry slices of the ripple adder commute with any map that respects XOR, AND, OR and zero |
| CounterAdd.SumStateCommutes | src/aes-bs.c:722-727 | the sum state commutes with any such map, so the adder on slices is the adder on each lane |
| CounterAdd.LaneCarry | src/aes-bs.c:725-726 | on one lane, the carry into step i is the carry into bit i of the binary sum of the two bytes |
| CounterAdd.LaneAdd | src/aes-bs.c:722-727 | on one lane, the adder gives the sum of the two bytes modulo 256 |
| CounterAdd.SumStateLanes | src/aes-bs.c:717-730 | every lane of the sum state holds the sum, modulo 256, of the bytes in that lane of the operands |
| CounterAdd.AddBitslice | src/aes-bs.c:717-730 | aesbs_add_bitslice returns the state whose every lane holds the sum modulo 256 of the two lanes: no carry crosses between bytes |
| CounterAdd.OneLanes | src/aes-bs.c:733-737 | the packed block with byte 15 set to 1 holds 1 in lane 15 and 0 in every other lane |
| CounterAdd.IncrementUnpack | src/aes-bs.c:732-740 | a state one more than another in lane 15 and equal elsewhere holds the block with byte 15 incremented |
| CounterAdd.IncrementBitslice | src/aes-bs.c:732-740 | aesbs_increment_bitslice adds 1 modulo 256 to byte 15 of the counter block and leaves the other fifteen bytes unchanged |
| KeyExpansion.RconValues | src/aes-bs.c:474-484 | the round constants are 01, 02, 04, 08, 10, 20, 40, 80, 1b, 36 |
| KeyExpansion.SubByteIsSbox | src/aes-bs.c:481-486 | the S-box table used by the key expansion is the S-box the bitsliced circuit computes |
| KeyExpansion.SubWordIsSbox | src/aes-bs.c:481-486 | SubWord applies the circuit's one-byte S-box to each byte of the word |
| KeyExpansion.ExpandKey | src/aes-bs.c:457-492 | the 4 * (Nr + 1) expanded words: the first Nk are the key, every later word i is word i - Nk XOR the transformed word i - 1 (RotWord, SubWord and Rcon at the start of a group, SubWord alone at position 4 when Nk > 6), and round key j is words 4j to 4j + 3 |
| KeyExpansion.FirstRoundKey | src/aes-bs.c:467-472 | round key 0 is the first sixteen bytes of the key |
| KeySetup.RotWordColumn | src/aes-bs.c:408-414 | on column 0, aesbs_RotWord is the RotWord of FIPS 197: [a0, a1, a2, a3] becomes [a1, a2, a3, a0] |
| KeySetup.GetColumnColumn | src/aes-bs.c:416-423 | aes__get_column(src, c) holds column c of src in column 0 |
| KeySetup.GetColumnElsewhere | src/aes-bs.c:416-423 | the other twelve bytes of the result of aes__get_column are zero |
| KeySetup.OrColumnBytes | src/aes-bs.c:435-436 | ORing a resultant into column c changes only the four bytes of column c, each ORed with the byte in the same row of column 0 of the resultant |
| KeySetup.KeySetupRoundCore | src/aes-bs.c:425-440 | the returned resultant is first_col XOR the requested column of the last expanded key, and only round key `index` changes: column 0 of the resultant is ORed into its column num_resultant_col |
| KeySetup.ResultantColumn | src/aes-bs.c:430-434 | column 0 of the resultant is the XOR of column 0 of first_col and column c of the last expanded key |
| KeySetup.MultiplyByXLanes | src/aes-bs.c:442-455 | aes__multiply_by_x is xtime in every lane: multiplication by x in GF(2^8) with the reduction 0x1b |
| KeySetup.RconStep | src/aes-bs.c:484 | a state holding Rcon[j] in column 0 holds Rcon[j + 1] there after multiply_by_x |
| KeySetup.SubBytesColumn | src/aes-bs.c:481-486 | SubBytes on column 0 is SubWord of that column |
| KeySetup.TransformColumn | src/aes-bs.c:479-487 | the branch at the head of each step turns first_col's column 0 into the transformed word of section 5.2 of FIPS 197, and moves rcon on to the next round constant exactly at the start of a group |
| KeySetup.ClearRoundKeys | src/aes-bs.c:460-465 | round keys 0 to Nr become zero and the ones after them are not touched |
| KeySetup.LoadKey | src/aes-bs.c:467-472 | byte j of key word i goes to row j of column i % 4 of round key i / 4: the round keys then hold the first Nk words of the expansion |
| KeySetup.LastKeyWord | src/aes-bs.c:475-476 | first_col starts out holding the last key word, word Nk - 1, in column 0 |
| KeySetup.NextWord | src/aes-bs.c:488-490 | with the transformed word i - 1 in first_col, the resultant of key_setup_round_core holds word i of the expansion |
| KeySetup.SchedulingStep | src/aes-bs.c:478-491 | one step of the expansion loop keeps its invariant: the round keys hold words 0 to i, first_col holds word i and rcon the next round constant |
| KeySetup.ExpandWord | src/aes-bs.c:478-491 | one iteration of the loop computes word i, ORs it into column i % 4 of round key i / 4, and keeps the loop invariant |
| KeySetup.ExpandFrom | src/aes-bs.c:478-491 | the expansion loop from word i on fills all 4 * (Nr + 1) words and does not touch the round keys after Nr |
| KeySetup.ExpandWords | src/aes-bs.c:474-491 | with rcon starting at 01 and first_col at the last key word, the loop leaves every word of the expansion in its column |
| KeySetup.KeySchedule | src/aes-bs.c:457-492 | round keys 0 to Nr end up holding, packed, the round keys of section 5.2 of FIPS 197 for the key, and the round keys after Nr are not touched |
| BlockFunction.BlockRoundTrip | src/aes-bs.c:543-581 | decrypting the encryption of a 16-byte block with the same round keys gives the block back |
| BlockFunction.DecryptUndoesEncrypt | src/aes-bs.c:543-581 | any block functions that are the cipher and the inverse cipher under the same round keys undo each other on every block |
| BlockFunction.EcbInverse | src/aes-bs.c:629-655 | ECB decryption undoes ECB encryption under the same round keys |
| BlockFunction.CbcInverse | src/aes-bs.c:657-698 | CBC decryption undoes CBC encryption under the same round keys and iv |
| BlockModes.XorBytesTwice | src/aes-bs.c:399-406 | XORing the same bytes in twice gives back the original bytes |
| BlockModes.EcbRoundTrip | src/aes-bs.c:629-655 | when decryption undoes encryption on every block, ECB decryption undoes ECB encryption |
| BlockModes.EcbBlock | src/aes-bs.c:636-640 | block i of the ECB encryption is the encryption of plaintext block i alone, whatever the other blocks hold |
| BlockModes.EcbStep | src/aes-bs.c:636-640 | encrypting one more block appends the encryption of that block |
| BlockModes.InvEcbStep | src/aes-bs.c:650-654 | decrypting one more block appends the decryption of that block |
| BlockModes.CbcRoundTrip | src/aes-bs.c:657-698 | when decryption undoes encryption on every block, CBC decryption with the same iv undoes CBC encryption |
| BlockModes.CbcBlock | src/aes-bs.c:667-675 | ciphertext block i is the encryption of plaintext block i XOR ciphertext block i - 1, with the iv in place of ciphertext block -1 |
| BlockModes.CbcPrefix | src/aes-bs.c:667-675 | the first n ciphertext blocks depend only on the first n plaintext blocks |
| BlockModes.CbcStep | src/aes-bs.c:667-675 | encrypting one more block appends the encryption of that block XOR the last ciphertext block (or the iv) |
| BlockModes.InvCbcStep | src/aes-bs.c:688-697 | decrypting one more block appends its decryption XOR the ciphertext block before it (or the iv) |
| BlockModes.IncrementByte | src/aes-bs.c:732-740 | one counter step adds 1 modulo 256 to byte 15 and leaves bytes 0 to 14 alone |
| BlockModes.CounterAfterByte | src/aes-bs.c:752-761 | n counter steps add n modulo 256 to byte 15 and leave bytes 0 to 14 alone |
| BlockModes.CtrBlock | src/aes-bs.c:753-756 | one whole block is XORed with the encryption of the counter block |
| BlockModes.CtrSplit | src/aes-bs.c:752-777 | CTR splits at any block boundary: the bytes after the first n blocks are processed from the counter block after n steps |
| BlockModes.CtrStep | src/aes-bs.c:752-761 | processing one more whole block appends that block XOR the encryption of the counter block after n steps |
| BlockModes.CtrInvolution | src/aes-bs.c:742-780 | CTR with the same block function and counter block, applied twice, gives the input back, a trailing partial block included |
| ModeLoops.UnpackXor | src/aes-bs.c:399-406 | aes__xor_state read back as bytes is the bytewise XOR of the two blocks |
| ModeLoops.EncryptState | src/aes-bs.c:638 | aesbs_enc_block on a packed block holds the encryption of that block under the block function |
| ModeLoops.DecryptState | src/aes-bs.c:652 | aesbs_dec_block on a packed block holds the decryption of that block |
| ModeLoops.EncryptAt | src/aes-bs.c:637-639 | one ECB step writes the encryption of the source block at the same offset of dest and changes nothing else |
| ModeLoops.DecryptAt | src/aes-bs.c:651-653 | one ECB decryption step writes the decryption of the source block and changes nothing else |
| ModeLoops.CbcEncryptAt | src/aes-bs.c:668-674 | one CBC step writes the encryption of the plaintext block XOR the previous ciphertext block and returns the new ciphertext block for the next step |
| ModeLoops.CbcDecryptAt | src/aes-bs.c:689-696 | one CBC decryption step writes the decryption XOR the previous ciphertext block and returns this ciphertext block for the next step |
| ModeLoops.CtrAt | src/aes-bs.c:753-760 | one whole CTR block writes the input block XOR the encrypted counter block and returns the incremented counter block |
| ModeLoops.ZeroPadded | src/aes-bs.c:766-770 | the partial input block: its first bytes are the input bytes and the rest are zero |
| ModeLoops.StorePrefix | src/aes-bs.c:766-770 | the bytes of a partial block are stored into a zero state at the same places as a whole block: byte j at row j % 4, column j / 4 |
| ModeLoops.CtrPartial | src/aes-bs.c:764-772 | the first rem bytes of the output block are the partial input XOR the encrypted counter block |
| ModeLoops.CtrTailAt | src/aes-bs.c:763-777 | a trailing partial block writes exactly rem = textsize % 16 bytes, each the input byte XOR the key stream, and no other byte of out changes |
| ModeLoops.EcbEncryptIteration | src/aes-bs.c:636-640 | one loop iteration extends the ECB encryption of the first i blocks to i + 1 blocks |
| ModeLoops.EcbEncryptBlocks | src/aes-bs.c:636-640 | the first 16n bytes of cipherText are the ECB encryption of the first 16n bytes of plainText, and the rest of cipherText is unchanged, also when both are the same buffer |
| ModeLoops.EcbDecryptIteration | src/aes-bs.c:650-654 | one loop iteration extends the ECB decryption of the first i blocks to i + 1 blocks |
| ModeLoops.EcbDecryptBlocks | src/aes-bs.c:650-654 | the first 16n bytes of plainText are the ECB decryption of cipherText's first 16n bytes, and the rest of plainText is unchanged |
| ModeLoops.CbcEncryptIteration | src/aes-bs.c:667-675 | one loop iteration extends the CBC encryption by a block and carries the new ciphertext block as previous_block |
| ModeLoops.CbcEncryptBlocks | src/aes-bs.c:667-675 | the first 16n bytes of cipherText are the CBC encryption of plainText with the iv, and the rest is unchanged |
| ModeLoops.CbcDecryptIteration | src/aes-bs.c:688-697 | one loop iteration extends the CBC decryption by a block and carries this ciphertext block as previous_block |
| ModeLoops.CbcDecryptBlocks | src/aes-bs.c:688-697 | the first 16n bytes of plainText are the CBC decryption of cipherText with the iv, and the rest is unchanged |
| ModeLoops.CtrIteration | src/aes-bs.c:752-761 | one loop iteration extends the CTR output by a block and steps the counter block once |
| ModeLoops.CtrWholeBlocks | src/aes-bs.c:752-761 | the first 16n bytes of out are CTR on the input's first 16n bytes, the rest of out is unchanged, and the counter block has stepped n times |
| ModeLoops.CtrBytes | src/aes-bs.c:750-777 | the first textsize bytes of out are CTR on the input, a trailing partial block included; out after textsize is unchanged; the returned counter block has stepped textsize / 16 times |
| Modes.Context.Init | src/aes-bs.c:618-627 | aesbs_init records the key size and leaves 15 round-key states, of which 0 to Nr are the round keys of section 5.2 of FIPS 197 for the key |
| Modes.Context.EcbEncrypt | src/aes-bs.c:629-641 | the first textsize / 16 whole blocks of cipher_text are the ECB encryption of plain_text under the context's key; the bytes after them are unchanged |
| Modes.Context.EcbDecrypt | src/aes-bs.c:643-655 | the first textsize / 16 whole blocks of plain_text are the ECB decryption of cipher_text; the bytes after them are unchanged |
| Modes.Context.CbcEncrypt | src/aes-bs.c:657-676 | the whole blocks of cipher_text are the CBC encryption of plain_text with the iv; the bytes after them are unchanged |
| Modes.Context.CbcDecrypt | src/aes-bs.c:678-698 | the whole blocks of plain_text are the CBC decryption of cipher_text with the iv; the bytes after them are unchanged |
| Modes.Context.CtrXcrypt | src/aes-bs.c:742-780 | out's first textsize bytes are CTR on the input, a trailing partial block included; out after textsize is unchanged; next_iv is the iv with byte 15 stepped textsize / 16 times, and the partial block does not step it |
| Modes.ModeRoundTrips | tests/install-test/main.c:16-28 | with a context set up by init, ECB and CBC decryption undo ECB and CBC encryption, and CTR applied twice gives the input back |
| Text.OrEmpty | scripts/write-new-version.py:10-14 | ret_emp_str_if_none gives "" for None and the value itself otherwise |
| Text.SplitNone | scripts/GetVersionFromFile.py:11 | str.split on a string without the separator gives the string as its only piece |
| Text.SplitSep | scripts/GetVersionFromFile.py:11 | a trailing separator adds one empty piece |
| Text.SplitExtend | scripts/GetVersionFromFile.py:11 | appending characters other than the separator extends the last piece |
| Text.SplitTerminated | scripts/GetVersionFromFile.py:11 | splitting a record of fields, each followed by the separator, gives back the fields and one empty piece, when no field holds the separator |
| SemVer.MatchNumberDot | scripts/write-new-version.py:7 | a match of `(0\|[1-9]\d*)\.` is a number without a leading zero followed by a dot and the rest of the string |
| SemVer.MatchTail | scripts/write-new-version.py:7 | a match of the optional pre-release and build-metadata groups up to the end renders back to the same text, and each group is well formed |
| SemVer.Match | scripts/write-new-version.py:7 | a match returns well-formed groups that render back to the version string |
| SemVer.MatchComplete | scripts/write-new-version.py:7 | every well-formed version string matches, and its groups are its parts |
| SemVer.MatchIff | scripts/write-new-version.py:7 | the regular expression matches exactly the strings of the Semantic Versioning 2.0.0 grammar |
| SemVer.NumericPrereleaseIdentifier | scripts/write-new-version.py:7 | an all-digit pre-release identifier is a number without a leading zero, like major, minor and patch |
| SemVer.NoDelimiter | scripts/write-new-version.py:7 | no group of a match and no matching version string contains `*` |
| VersionWriter.VersionFile.Open | scripts/write-new-version.py:30 | opening the version file for writing leaves it empty |
| VersionWriter.VersionFile.Write | scripts/write-new-version.py:32 | each write appends its text to the file |
| VersionWriter.WriteField | scripts/write-new-version.py:32-33 | writing a field appends the field, "" for None, and then `*` |
| VersionWriter.WriteGroups | scripts/write-new-version.py:39-56 | after the two copies of the version, major, minor, patch and the pre-release (or "") are written, each with its `*`, then `0*` |
| VersionWriter.WriteNewVersion | scripts/write-new-version.py:17-59 | for a matching version the file holds the seven `*`-terminated fields and main returns 0; for a version that does not match the file holds `s*s*` and main fails at matches.group |
| VersionWriter.RecordPieces | scripts/write-new-version.py:30-56 | splitting the written record of a matching version on `*` gives exactly eight pieces: the seven fields and an empty last piece; the build metadata has no field of its own |
| VersionReader.FromPieces | scripts/GetVersionFromFile.py:12-21 | an IndexError names the first missing piece: index 5 when MAJOR is empty and pieces 3 and 4 are skipped, otherwise the number of pieces, always below 8; a ValueError is raised only for text that is not a number |
| VersionReader.ReadSucceedsIff | scripts/GetVersionFromFile.py:11-21 | the read succeeds exactly when there are at least eight pieces and every converted field holds a number |
| VersionReader.ReadFields | scripts/GetVersionFromFile.py:13-20 | pieces 0 to 7 map by position: the string entries are the raw pieces, MAJOR and AHEAD are the values of their pieces or 0 when the piece is empty, and MINOR and PATCH are their values when MAJOR's piece is non-empty and 0 otherwise |
| VersionReader.MinorPatchGuardedByMajor | scripts/GetVersionFromFile.py:15-17 | with an empty MAJOR piece, MINOR and PATCH are 0 whatever their pieces hold; with a numeric MAJOR piece, an empty MINOR piece is a ValueError |
| VersionReader.TooFewPieces | scripts/GetVersionFromFile.py:11-21 | fewer than eight pieces (fewer than seven `*`) can never be read, and an IndexError then names an index past the last piece |
| VersionReader.FromWrittenPieces | scripts/GetVersionFromFile.py:12-21 | the seven fields the writer lays out, followed by the empty piece, read as the two strings, the three numbers, the tweak, AHEAD 0 and an empty Git SHA |
| VersionReader.ReadWritten | scripts/GetVersionFromFile.py:8-22 | reading what the writer wrote for a matching version s gives s in both string entries, the captured major, minor and patch, the pre-release (or "") as the tweak, AHEAD 0 and an empty Git SHA |

## Left out

- src/aes-ni.cpp, the AES-NI backend, is not part of this model. Its intrinsics have no semantics in the source, so it is not proved equal to the bitsliced backend. Its counter (m128i_add) also carries differently from the bitsliced one when byte 15 wraps around.
- The runtime dispatch in src/aes.c, the CPU feature detection and the attribute macros in src/inner.h and src/aes-ni.h are not part of this model: they are plumbing or foreign calls.
- Constant-time and side-channel behaviour, the reason for bitslicing, cannot be stated in Dafny.
- The debug printers under `#if 0` are disabled code.
- The context keeps only what the bitsliced code uses: the key size and 15 round-key states. The Nr field, the dispatch table and dec_round_keys are not used by src/aes-bs.c. The `memcpy` into and out of the context is modelled as an array of states that the mode functions copy into a sequence value. The byte layout and the `static_assert` are not modelled.
- Modes.Context.Init: requires a key size of 128, 192 or 256, the three values of enum AesKeyType. With any other value aesbs_key_size_to_nr gives 0, and aesbs_dec_block would then step its size_t round index below zero. BlockCipher.KeySizeToNr does model the 0 branch.
- Modes.Context.CtrXcrypt: requires next_iv and out to be different buffers. Every other aliasing of the buffers is allowed. Each mode reads an input block before it writes the output block at the same offset, so the input may be the output buffer.
- Modes.Context.EcbEncrypt: like every mode function, requires the buffers to hold the bytes it reads and writes; the C code would read or write out of bounds otherwise.
- Buffer sizes and offsets are unbounded naturals: an overflow of `i * 16` in size_t is not modelled.
- The concrete test vector of FIPS 197, Appendix C.1, used by the install test, is not proved. Evaluating the whole cipher on literal bytes is beyond what the solver does within its limits. Instead, the cipher is proved equal, on bytes, to Cipher() of FIPS 197 under the round keys of the key expansion, for every key and every block; each round function is proved equal to its byte form in the standard.
- Rotations.Rotl4Bit and Rotations.Rotr4Bit: require a rotation amount of at most 4; the source only rotates by 1, 2 and 3.
- File handling is not modelled: opening, reading and writing files, argparse, the version file name and sys.exit. The writer's file is an object whose content the writes extend. The reader takes the file content as a string.
- Python's `int()` is modelled on ASCII decimal digits only. Its extra leniency is not modelled: surrounding whitespace, a sign, underscores and non-ASCII digits. The same holds for `\d` in the regular expression, which in Python also matches non-ASCII digits.
- SemVer.Match: `$` in Python also matches before a trailing newline, so the code accepts a version string ending in one newline. The model does not.
- Text.Split models `str.split` with a one-character separator only, which is the only form the scripts use.
