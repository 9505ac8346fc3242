# BUNNY24, sponge, LFSR ciphers and generators in Dafny

A verified model of the cryptographic library of the repository (`src/lib`)
and of the cryptographic slice of its socket layer (`src/fsock.c`):

- **Field** (`field.dfy`): GF(2^n) arithmetic of `field.c` on bytes: f2sum,
  f2mul and f2exp (as loops proved equal to recursive specifications), f2rot
  with its bit-level meaning and inverse; **FieldText**: btoi and ptos with
  their round trip.
- **Gf64** (`gf64.dfy`): the field GF(64) = GF(2)[x]/(x^6 + x^4 + x^3 + x + 1)
  in which BUNNY24 computes. The product is shown commutative, associative and
  distributive, x is shown primitive (x^63 = 1), and the exponent laws that
  make the S-boxes invertible follow.
- **Bunny24** (`bunny24.dfy`): the block cipher of `bunny24.c`: packing of 3
  bytes into four 6-bit elements, the four power-map S-boxes, the mixing
  matrix, the round function, the 88-word key schedule, the full cipher
  (whitening and 15 rounds) and the reduced one (whitening and 2 rounds under
  the raw key). Every routine writes into a caller-supplied array, as in C,
  and is proved equal to a function on values; the inverse pairs are proved
  about those functions in both orders.
- **Cbc** (`cbc.dfy`): `_bunny24_cbc_encrypt`/`_bunny24_cbc_decrypt`, generic
  over the block function, and the four binding macros of `bunny24.h`; CBC
  decryption undoes encryption up to the zero padding.
- **Sponge** (`sponge.dfy`): `spongebunny`, a sponge over the 24-bit BUNNY24
  state with a 20-bit rate and a 4-bit capacity. Absorption consumes the
  message in 20-bit runs without touching the capacity, and the 20-byte
  digest packs the rate parts of eight successive states.
- **Lfsr** (`lfsr.dfy`): the Fibonacci register of `lfsr.c` (update, LFSR,
  lfsr_period, key_loading), and the A5/1, MAJ5 and ALL5 key-stream
  generators over banks of registers, each proved to write the first n bits
  of a key-stream function. The ALL5 combiner x0x3 + x1x2 + x1x4 + x2x3 is 1
  on 12 of the 32 inputs (`Lfsr.SemibentWeight`), so it is not balanced,
  although the comment at `src/lib/lfsr.c:365-369` calls it so.
- **Rng** (`rng.dfy`): the Mersenne-Twister-like fast generator `frng` as a
  class over the global table and index, and the secure generator `srng`,
  CBC encryption of zeros under BUNNY24. The fast generator follows the code,
  which departs from MT19937: each seeded entry keeps only 16 bits, the
  twist adds `MT[i] ^ 0x80000000`, and with arithmetic shifts the tempered
  words are never negative (`Rng.Temper`).
- **Fsock** (`fsock.c` slice): the ciphersuite table, `scipher` (key
  expansion to 64 bits, MAJ5 or ALL5 key stream, packing and XOR), and the
  `sencrypt`/`sdecrypt` dispatch to BUNNY24-CBC. The binding macro's
  argument order puts the session key in the IV slot and the constant "abc"
  in the key slot; both directions share that, so they stay inverse.

Bytes are `bv8`, the `int` words of the generator `bv32`, 0/1 register cells
bytes holding 0 or 1. Registers, blocks and buffers the C updates in place are
arrays; the methods state the whole new contents and that nothing else
changes.

## Model

| member | source | states |
|---|---|---|
| Field.Sum | src/lib/field.c:15-20 | f2sum under its assert that both operands fit in n bits: the sum fits in n bits too |
| Field.SumGroup | src/lib/field.c:15-20 | the sum is commutative, every element is its own negative, and adding b twice gives back a |
| Field.SumVectors | src/lib/test/test_field.c:22-41 | 7 + 3 = 4 on eight bits and 4 + 3 = 7 on five, the operands passing f2sum's check |
| Field.MulStep | src/lib/field.c:34-38 | one pass of the f2mul loop: reduce a by p when bit n is set, add it when the low bit of b is set, then shift both |
| Field.F2Mul | src/lib/field.c:30-41 | the loop returns the shift-and-add product Mul(p, n, a, b) for every input |
| Field.MulFits | src/lib/field.c:30-41 | for a polynomial of degree n, a product of an operand below 2^(n+1) fits in n bits |
| Field.MulZeroOne | src/lib/field.c:30-41 | zero absorbs on both sides; 1 is neutral on the right for operands that fit in n bits |
| Field.MulVector | src/lib/test/test_field.c:43-54 | modulo x^3 + 1, (x^2 + 1) times x is x + 1 |
| Field.F2Exp | src/lib/field.c:54-64 | under the C assert b != 0, the loop returns a^b, that is b - 1 products by a starting from a |
| Field.ExpFits | src/lib/field.c:54-64 | every power of an element of the field is an element of the field |
| Field.ExpVector | src/lib/test/test_field.c:60-63 | modulo x^5 + 1 the cube of x^2 + x is x^4 + x^3 + x + 1 |
| Field.ExpVectorSixteen | src/lib/test/test_field.c:71-74 | modulo x^6 + x^4 + x^3 + x + 1 the 16th power of x is x^4 + x + 1 |
| Field.ExpVectorFortyFive | src/lib/test/test_field.c:65-68 | modulo x^6 + x^4 + x^3 + x + 1 the 45th power of x is x^5 + x + 1 |
| Field.Rot | src/lib/field.c:78-84 | for |r| <= n <= 8 and p within n bits, bit i of the result is bit i + r of p counted modulo n, for negative r as well as nonnegative |
| Field.RotRightBits | src/lib/field.c:82-83 | bit i of the rotation by a nonnegative count m is bit i + m of the input, counted modulo n |
| Field.RotLeftBits | src/lib/field.c:80-81 | bit i of the rotation by a negative count -m is bit i - m of the input, counted modulo n |
| Field.RotFits | src/lib/field.c:78-84 | a rotation of an n-bit value stays within n bits |
| Field.LeftThenRight | src/lib/field.c:78-84 | rotating by -m and then by m restores the value |
| Field.RightThenLeft | src/lib/field.c:78-84 | rotating by m and then by -m restores the value |
| Field.RotInverse | src/lib/field.c:78-84 | f2rot by r followed by f2rot by -r is the identity on n-bit values |
| Field.RotVectors | src/lib/test/test_field.c:81-91 | 0x59 rotated on eight bits by 1 is 0xAC and by -1 is 0xB2 |
| FieldText.Btoi | src/lib/field.c:124-134 | on text of '0' and '1' only (the C assert), the loop returns the binary value read most significant digit first, kept to eight bits |
| FieldText.Ptos | src/lib/field.c:102-114 | the eight characters '0'/'1' of the byte, most significant bit first |
| FieldText.BtoiPtos | src/lib/field.c:102-134 | ptos gives eight binary digits, and btoi of them gives the byte back |
| Gf64.ElemFits | src/lib/bunny24.c:98-102 | the elements of the cipher's field are exactly the values that pass f2sum's check for n = 6 |
| Gf64.TimesElem | src/lib/bunny24.c:167 | f2mul with the cipher's polynomial 0x5B keeps products of elements among the 64 elements |
| Gf64.TimesZero | src/lib/bunny24.c:167 | zero absorbs the product on both sides |
| Gf64.TimesOne | src/lib/bunny24.c:167 | 1 is neutral on the left of the product |
| Gf64.XTimes | src/lib/bunny24.c:167 | multiplying by x commutes with the product |
| Gf64.PowCycle | src/lib/bunny24.c:19-25 | x^63 = 1: the polynomial x^6 + x^4 + x^3 + x + 1 is primitive |
| Gf64.PowPeriod | src/lib/bunny24.c:19-25 | the powers of x repeat with period 63 |
| Gf64.PowTimes | src/lib/bunny24.c:19-25 | x^i times x^j is x^(i + j) |
| Gf64.PowTable | src/lib/bunny24.c:19-25 | the 63 powers x^0 .. x^62 as bytes |
| Gf64.Log | src/lib/bunny24.c:19-25 | every nonzero element is a power x^l of x with l < 63 |
| Gf64.Commutative | src/lib/bunny24.c:167 | the product is commutative |
| Gf64.Associative | src/lib/bunny24.c:167 | the product is associative |
| Gf64.NoZeroDivisors | src/lib/bunny24.c:167 | the product of two nonzero elements is nonzero |
| Gf64.DistRight | src/lib/bunny24.c:167-168 | the product distributes over the sum (xor) on the right |
| Gf64.DistLeft | src/lib/bunny24.c:167-168 | the product distributes over the sum (xor) on the left |
| Gf64.PowerOfPow | src/lib/bunny24.c:98-100 | f2exp of x^l to the k is x^(k l) |
| Gf64.PowerOfZero | src/lib/bunny24.c:98-100 | every positive power of zero is zero |
| Gf64.PowerInverse | src/lib/bunny24.c:98-109 | raising an element to e and then to f gives it back when e f = 1 modulo 63 |
| Bunny24.XorBlockTwice | src/lib/bunny24.c:35-43 | adding the same round key twice gives the block back |
| Bunny24.Xor | src/lib/bunny24.c:35-43 | xor: dest holds the element-wise sum of the old v and the key, with dest allowed to be v |
| Bunny24.XorBytesTwice | src/lib/bunny24.c:45-52 | the 3-byte sum is commutative, and adding b twice gives back a |
| Bunny24.Cxor | src/lib/bunny24.c:45-52 | cxor: dest holds the byte-wise sum of the old a and b, with dest allowed to be either |
| Bunny24.BlockOf | src/lib/bunny24.c:62-73 | bytes_to_block always yields four 6-bit elements |
| Bunny24.BytesBlockBytes | src/lib/bunny24.c:62-90 | block_to_bytes after bytes_to_block gives back every 3 bytes |
| Bunny24.BlockBytesBlock | src/lib/bunny24.c:62-90 | bytes_to_block after block_to_bytes gives back every block of four elements |
| Bunny24.BytesToBlock | src/lib/bunny24.c:62-73 | dest holds the 24 bits, most significant first, cut into four 6-bit elements |
| Bunny24.BlockToBytes | src/lib/bunny24.c:83-90 | dest holds the four elements glued back into three bytes |
| Bunny24.ESquared | src/lib/bunny24.c:101-102 | f2exp(primitive, 6, e, 2) is e^2 = 0x4, the constant sbox4 adds |
| Bunny24.Sbox1 | src/lib/bunny24.c:98 | sbox1, the power v^62, maps field elements to field elements |
| Bunny24.Sbox2 | src/lib/bunny24.c:99 | sbox2, the power v^5, maps field elements to field elements |
| Bunny24.Sbox3 | src/lib/bunny24.c:100 | sbox3, the power v^17, maps field elements to field elements |
| Bunny24.InvSbox1 | src/lib/bunny24.c:105 | isbox1, the power v^62, maps field elements to field elements |
| Bunny24.InvSbox2 | src/lib/bunny24.c:106 | isbox2, the power v^38, maps field elements to field elements |
| Bunny24.InvSbox3 | src/lib/bunny24.c:107 | isbox3, the power v^26, maps field elements to field elements |
| Bunny24.InvSbox4 | src/lib/bunny24.c:108-109 | isbox4, (v + e^2)^62, maps field elements to field elements |
| Bunny24.Sbox4 | src/lib/bunny24.c:101-102 | sbox4 on an element passes f2sum's check and yields an element |
| Bunny24.Sbox1Inverse | src/lib/bunny24.c:98-105 | v^62 is its own inverse on the field, in both orders |
| Bunny24.Sbox2Inverse | src/lib/bunny24.c:99-106 | v^5 and v^38 undo each other on the field, in both orders |
| Bunny24.Sbox3Inverse | src/lib/bunny24.c:100-107 | v^17 and v^26 undo each other on the field, in both orders |
| Bunny24.Sbox4Inverse | src/lib/bunny24.c:101-109 | v^62 + e^2 and (v + e^2)^62 undo each other on the field, in both orders |
| Bunny24.Insbox | src/lib/bunny24.c:112-125 | an index outside 0..3 gives 0; for i in 0..3 the result is the element that S-box i maps to v |
| Bunny24.SubBlockInverse | src/lib/bunny24.c:127-145 | the S-box layer and the inverse S-box layer undo each other on blocks, in both orders |
| Bunny24.Sbox | src/lib/bunny24.c:127-135 | dest holds S-box i applied to element i of the old v, with dest allowed to be v |
| Bunny24.InverseSbox | src/lib/bunny24.c:137-145 | dest holds inverse S-box i applied to element i of the old v |
| Bunny24.SboxVector | src/lib/test/test_bunny24.c:10-22 | the S-box layer takes the block 1 1 1 1 to 1 1 1 5 |
| Bunny24.TimesLaws | src/lib/bunny24.c:167 | f2mul with the cipher's polynomial is closed, associative, distributive on both sides, absorbs zero and has 1 as unit |
| Bunny24.MixXor | src/lib/bunny24.c:165-169 | for any product that distributes, the block-times-matrix product is additive in the block |
| Bunny24.MixScale | src/lib/bunny24.c:165-169 | for any associative, distributive product, scaling the block scales the product |
| Bunny24.MixRows | src/lib/bunny24.c:165-169 | the block times the matrix is the sum of the matrix rows, each scaled by its entry of the block |
| Bunny24.MixInverse | src/lib/bunny24.c:154-193 | when n times m is the identity, multiplying by n undoes multiplying by m |
| Bunny24.MixLayerBlock | src/lib/bunny24.c:154-193 | both mixing layers map blocks to blocks |
| Bunny24.MixThenInverse | src/lib/bunny24.c:154-193 | inverse_mixing_layer undoes mixing_layer on every block |
| Bunny24.InverseThenMix | src/lib/bunny24.c:154-193 | mixing_layer undoes inverse_mixing_layer on every block |
| Bunny24.MultiplyByMatrix | src/lib/bunny24.c:165-169 | the double loop leaves in dest the block v, as a row vector, times the matrix |
| Bunny24.MixingLayer | src/lib/bunny24.c:154-172 | dest holds the block times the mixing matrix |
| Bunny24.InverseMixingLayer | src/lib/bunny24.c:174-193 | dest holds the block times the inverse mixing matrix |
| Bunny24.MixVectorOne | src/lib/test/test_bunny24.c:59-74 | the mixing layer takes 0x33 0x24 0x05 0x20 to 0x1b 0x08 0x2c 0x37 |
| Bunny24.MixVectorTwo | src/lib/test/test_bunny24.c:59-74 | the mixing layer takes 0x12 0x38 0x3c 0x18 to 0x3c 0x35 0x0e 0x31 |
| Bunny24.MixVectorThree | src/lib/test/test_bunny24.c:59-74 | the mixing layer takes 0x24 0x25 0x1d 0x35 to 0x0d 0x23 0x03 0x06 |
| Bunny24.RoundInverse | src/lib/bunny24.c:202-222 | round_function and inverse_round_function under the same key undo each other, in both orders |
| Bunny24.RoundFunction | src/lib/bunny24.c:202-211 | dest holds the mixing layer of the S-boxes of the old v, plus the round key, with dest allowed to be v |
| Bunny24.InverseRoundFunction | src/lib/bunny24.c:213-222 | dest holds the inverse S-boxes of the inverse mixing layer of the old c plus the key |
| Bunny24.RB | src/lib/bunny24.c:27 | RB, the rotation of six bits by -1, keeps elements within the field |
| Bunny24.FirstWords | src/lib/bunny24.c:240-249 | the first eight words are elements and begin with the key block |
| Bunny24.Words | src/lib/bunny24.c:251-258 | every word of the schedule is an element and the first four are the key block |
| Bunny24.KeyIndex | src/lib/bunny24.c:261-263 | every word step 3 reads lies in 8..83, within the 88 words |
| Bunny24.RoundKeys | src/lib/bunny24.c:232-266 | the sixteen round keys are blocks of four elements |
| Bunny24.NextStep | src/lib/bunny24.c:252-258 | one pass of step 2 appends the word that the three tests set and changes nothing below it |
| Bunny24.ExtractKeys | src/lib/bunny24.c:261-263 | row i of rk holds round key i of the words |
| Bunny24.ExpandKey | src/lib/bunny24.c:238-258 | w holds the 88 words of the schedule of the key block |
| Bunny24.KeySchedule | src/lib/bunny24.c:232-266 | rk holds the sixteen round keys of the 3-byte key |
| Bunny24.RoundsInverse | src/lib/bunny24.c:288-289 | for round functions that undo each other, the rounds in reverse key order undo the rounds |
| Bunny24.CipherInverse | src/lib/bunny24.c:275-334 | whitening plus rounds is undone by the inverse rounds in reverse order plus the whitening |
| Bunny24.Encrypt | src/lib/bunny24.c:310-334 | bunny24_encrypt's value: whitening with round key 0 and fifteen rounds map a 3-byte message to a 3-byte ciphertext |
| Bunny24.Decrypt | src/lib/bunny24.c:275-296 | bunny24_decrypt returns a 3-byte message that bunny24_encrypt maps back to the given ciphertext |
| Bunny24.ReducedDecrypt | src/lib/bunny24.c:364-377 | reduced_bunny24_decrypt returns a 3-byte message that reduced_bunny24_encrypt maps back to the given ciphertext |
| Bunny24.EncryptInverse | src/lib/bunny24.c:275-334 | bunny24_decrypt undoes bunny24_encrypt under the same key, and the other way round |
| Bunny24.ReducedKeys | src/lib/bunny24.c:354 | the reduced cipher uses the unexpanded key block for the whitening and both rounds |
| Bunny24.ReducedInverse | src/lib/bunny24.c:345-377 | reduced_bunny24_decrypt undoes reduced_bunny24_encrypt, and the other way round |
| Bunny24.ForwardRounds | src/lib/bunny24.c:325-326 | the in-place loop applies round_function under round keys 1..15 in order |
| Bunny24.BackwardRounds | src/lib/bunny24.c:288-289 | the in-place loop applies inverse_round_function under round keys 15 down to 1 |
| Bunny24.Bunny24Encrypt | src/lib/bunny24.c:310-334 | dest holds the encryption of the message under the key |
| Bunny24.Bunny24Decrypt | src/lib/bunny24.c:275-296 | dest holds the decryption of the ciphertext under the key |
| Bunny24.ReducedBunny24Encrypt | src/lib/bunny24.c:347-362 | dest holds the whitening and two rounds of the message under the key block |
| Bunny24.ReducedBunny24Decrypt | src/lib/bunny24.c:364-377 | dest holds the two inverse rounds and the whitening of the ciphertext |
| Cbc.Pad | src/lib/bunny24.c:415-423 | the message followed by the fewest zero bytes that make its length a multiple of three |
| Cbc.PadWhole | src/lib/bunny24.c:415-423 | a message of whole blocks is not padded |
| Cbc.Padded | src/lib/bunny24.c:415-423 | the length rounded up to the next multiple of three |
| Cbc.PadLength | src/lib/bunny24.c:415-423 | the padded message has the padded length |
| Cbc.CbcEncrypt | src/lib/bunny24.c:407-444 | the CBC encryption of a message of at least one block has the padded length |
| Cbc.CbcDecrypt | src/lib/bunny24.c:385-404 | the CBC decryption of whole blocks has the ciphertext's length |
| Cbc.EncryptedPrefix | src/lib/bunny24.c:426-431 | a ciphertext block does not depend on later message blocks |
| Cbc.EncryptedBlockAt | src/lib/bunny24.c:426-431 | ciphertext block n is the block function of message block n plus ciphertext block n - 1, or plus the IV for the first block |
| Cbc.DecryptedBlockAt | src/lib/bunny24.c:395-401 | plaintext block n is the inverse block function of ciphertext block n plus ciphertext block n - 1, or plus the IV for the first block |
| Cbc.DecryptEncrypted | src/lib/bunny24.c:385-444 | when d inverts e, decrypting the first n encrypted blocks gives the first n message blocks back |
| Cbc.EncryptDecrypted | src/lib/bunny24.c:385-444 | when e inverts d, encrypting the first n decrypted blocks gives the first n ciphertext blocks back |
| Cbc.CbcInverse | src/lib/bunny24.c:385-444 | for inverse block functions, decryption undoes encryption up to the zero padding, and encryption undoes decryption on whole blocks |
| Cbc.CbcOneBlock | src/lib/bunny24.c:426-427 | a single block under the zero IV is the block function itself |
| Cbc.PaddedLast | src/lib/bunny24.c:428-441 | when the loop stops at i with len within the next block, the output ends at i + 3 |
| Cbc.ChainEncrypt | src/lib/bunny24.c:407-444 | for len of at least 3, dest holds the CBC encryption of the first len bytes, padded to whole blocks, and nothing past the padded length changes; dest may be plaintext itself |
| Cbc.DecryptEnd | src/lib/bunny24.c:398 | the loop bound as written, len + 3*(len%3 != 0), equals len when len is a multiple of three |
| Cbc.DecryptEndMissed | src/lib/bunny24.c:398 | for len not a multiple of three, or zero, the counter 3, 6, 9, ... never meets that bound |
| Cbc.DecryptEndIntended | src/lib/bunny24.c:398 | the intended bound, len rounded up to whole blocks, agrees with the code whenever the code stops |
| Cbc.ChainDecrypt | src/lib/bunny24.c:385-404 | for len > 0, dest holds the CBC decryption of the ciphertext up to len rounded up to whole blocks, and nothing past that changes |
| Cbc.BlockCiphers | src/lib/bunny24.c:275-377 | bunny24 and the reduced bunny24 map 3 bytes to 3 bytes and their decryptions invert their encryptions |
| Cbc.Bunny24CbcEncrypt | src/lib/include/bunny24.h:54-55 | bunny24_cbc_encrypt gives the padded length |
| Cbc.Bunny24CbcDecrypt | src/lib/include/bunny24.h:59-60 | bunny24_cbc_decrypt gives the ciphertext's length |
| Cbc.ReducedCbcEncrypt | src/lib/include/bunny24.h:56-57 | reduced_bunny24_cbc_encrypt, under the zero IV, gives the padded length |
| Cbc.ReducedCbcDecrypt | src/lib/include/bunny24.h:61-62 | reduced_bunny24_cbc_decrypt, under the zero IV, gives the ciphertext's length |
| Cbc.Bunny24CbcInverse | src/lib/include/bunny24.h:54-60 | bunny24 CBC decryption under the same IV and key gives the zero-padded message back, and the converse on whole blocks |
| Cbc.ReducedCbcInverse | src/lib/include/bunny24.h:56-62 | the same round trip for the reduced bindings |
| Cbc.ReducedCbcOneBlock | src/lib/include/bunny24.h:56-57 | on a single block the reduced CBC binding is the reduced cipher |
| Sponge.Permute | src/lib/sponge.c:87 | bunny24_encrypt under the key ff ff ff maps 3-byte states to 3-byte states (see also line 97) |
| Sponge.NibblesRoundTrip | src/lib/sponge.c:31-55 | splitting bytes into nibbles and packing them again is the identity, both ways |
| Sponge.Window | src/lib/sponge.c:31-42 | the window oxor takes from a is three bytes |
| Sponge.WindowIsChunk | src/lib/sponge.c:31-42 | the window XORed in at absorbing step k is message nibbles 5k .. 5k+4 followed by a zero capacity nibble (see also lines 95-101) |
| Sponge.CapacityKept | src/lib/sponge.c:31-42 | oxor never changes the low nibble of the last state byte, the 4-bit capacity |
| Sponge.PadLen | src/lib/sponge.c:65-71 | padding brings len to the next multiple of five, adding at most four bytes |
| Sponge.RateAligned | src/lib/sponge.c:67 | padding's test (len*8) % 20 is zero exactly when len is a multiple of five |
| Sponge.PadMessage | src/lib/sponge.c:65-71 | the padded message has the padded length |
| Sponge.StepsCount | src/lib/sponge.c:95-101 | absorbing step k runs exactly when its window starts inside the message |
| Sponge.ReadsInPadding | src/lib/sponge.c:92-101 | every window the absorbing loop reads lies within the padded buffer |
| Sponge.AbsorbedStateIs | src/lib/sponge.c:92-101 | the absorbed state of m is the state after Steps(len) steps over the padded message |
| Sponge.ZeroExtension | src/lib/sponge.c:61-62 | when len % 5 is 1, 3 or 4, appending a zero byte gives the same absorbed state and so the same hash (see also lines 65-71) |
| Sponge.SqueezePair | src/lib/sponge.c:44-55 | two sqeeze calls, at offset 0 and then two bytes on at offset 1, write the rate parts of the two states into five bytes (see also lines 105-111) |
| Sponge.PairsArePacked | src/lib/sponge.c:103-111 | the first 5j digest bytes are the rate nibbles of 2j successive states, packed |
| Sponge.DigestNibbles | src/lib/sponge.c:103-111 | nibbles 5i .. 5i+4 of the digest are the rate of the i-th state after absorption |
| Sponge.DigestIsPairs | src/lib/sponge.c:103-111 | the squeezing loop's byte pairs are the digest of the message |
| Sponge.Oxor | src/lib/sponge.c:31-42 | dest holds b XOR the window of a, with dest allowed to be b |
| Sponge.Sqeeze | src/lib/sponge.c:44-55 | the three bytes at i take the squeezed value of their old value and the state; nothing else changes |
| Sponge.Padding | src/lib/sponge.c:65-71 | the buffer holds the message and zeros up to the padded length, and nothing past it changes |
| Sponge.EncryptState | src/lib/sponge.c:97 | the state becomes the permutation of its old value (see also line 107) |
| Sponge.AbsorbStep | src/lib/sponge.c:95-101 | one pass oxors the window at the read position, permutes, and moves on by 2 or 3 bytes |
| Sponge.AbsorbLoop | src/lib/sponge.c:95-101 | the loop runs Steps(len) times and leaves the absorbed state |
| Sponge.Absorb | src/lib/sponge.c:92-101 | from the zero state, absorbing leaves the absorbed state of the message |
| Sponge.Bzero | src/lib/sponge.c:104 | the first n bytes become zero and nothing else changes |
| Sponge.Squeeze | src/lib/sponge.c:103-111 | the loop stops at i = 20, offset 0, with the four byte pairs in dest[0..20), the state permuted eight times, and nothing past 20 changed |
| Sponge.AbsorbSqueeze | src/lib/sponge.c:84-111 | the message is padded in place, dest[0..20) holds the digest, and the state is left after eight permutations |
| Sponge.SpongeWith | src/lib/sponge.c:84-115 | for any permutation: the digest in dest[0..20), then the extra sqeeze into dest[20..23), and nothing else changed |
| Sponge.SpongeBunny | src/lib/sponge.c:84-115 | spongebunny as written: the digest in dest[0..20), and the final sqeeze at line 112 changes dest[20..23), so dest needs 23 bytes |
| Sponge.SpongeHash | src/lib/sponge.c:84-111 | the hash evidently intended: the digest in dest[0..20) and nothing else changed |
| Sponge.SqueezePastHash | src/lib/sponge.c:44-55 | the final sqeeze writes the first two state bytes into the two bytes after the digest, changing them whenever they differed (see also line 112) |
| Lfsr.Step | src/lib/lfsr.c:26-40 | one clock keeps the register's length |
| Lfsr.Output | src/lib/lfsr.c:42-45 | output reads the last cell, so a register of 0/1 cells outputs a bit |
| Lfsr.OutputHistory | src/lib/lfsr.c:42-45 | after at least len clocks, output returns the feedback bit produced len clocks earlier |
| Lfsr.ClockHistory | src/lib/lfsr.c:26-40 | after n clocks, cell k holds the bit produced k + 1 clocks earlier, or for k >= n the starting cell k - n |
| Lfsr.FeedbackLinear | src/lib/lfsr.c:32-33 | the feedback of a sum of registers is the sum of their feedbacks |
| Lfsr.StepLinear | src/lib/lfsr.c:26-40 | update is linear: clocking the sum of two registers gives the sum of the clocked registers |
| Lfsr.ZeroStays | src/lib/lfsr.c:26-40 | the all-zero register stays all-zero for any number of clocks |
| Lfsr.Update | src/lib/lfsr.c:26-40 | update returns the feedback bit of the old state, and the state moves up one cell with that bit entering cell 0 |
| Lfsr.Lfsr | src/lib/lfsr.c:66-78 | dest[0..n) holds the n bits update returns, nothing past n changes, and the register is clocked n times |
| Lfsr.Start | src/lib/lfsr.c:98-102 | lfsr_period's starting register has len cells |
| Lfsr.StopsAt | src/lib/lfsr.c:104-109 | on 0/1 registers, the do-while's stopping test holds exactly at 0...01 and at the all-zero register |
| Lfsr.Period | src/lib/lfsr.c:92-113 | given that the test holds after some number of clocks, lfsr_period returns the least positive clock count at which it holds |
| Lfsr.Count | src/lib/lfsr.c:104-110 | the do-while over a register whose states are known returns the first positive index at which the test holds |
| Lfsr.LoadRounds | src/lib/lfsr.c:149-159 | every register goes through one loading round per bit, in order |
| Lfsr.KeyLoading | src/lib/lfsr.c:136-162 | n fresh registers of the given degrees, each zeroed and then loaded with the 64 key bits and the 22 frame bits |
| Lfsr.LoadAllBits | src/lib/lfsr.c:136-162 | loading 0/1 bits into a 0/1 register leaves it 0/1 |
| Lfsr.Votes | src/lib/lfsr.c:174-175 | the vote count never exceeds the number of registers (see also lines 249-250) |
| Lfsr.MajorityMoves | src/lib/lfsr.c:174-178 | on 0/1 clock cells, more than half of them equal the majority bit (see also lines 249-253) |
| Lfsr.MajorityClocksMost | src/lib/lfsr.c:164-181 | a5_1_update and maj5_update clock a strict majority of the registers (see also lines 240-257) |
| Lfsr.MajorityStep | src/lib/lfsr.c:164-181 | the majority update keeps every register's length (see also lines 240-257) |
| Lfsr.MajorityUpdate | src/lib/lfsr.c:164-181 | returns the majority bit of the clock cells and clocks exactly the registers whose clock cell equals it (see also lines 240-257) |
| Lfsr.A51Update | src/lib/lfsr.c:164-181 | a5_1_update: majority over cells 8, 10, 10 with threshold 1 |
| Lfsr.Maj5Update | src/lib/lfsr.c:240-257 | maj5_update: majority over cells 8, 10, 10, 4, 6 with threshold 2, returning the majority bit |
| Lfsr.AllUpdate | src/lib/lfsr.c:317-325 | all5_update clocks every register |
| Lfsr.Advance | src/lib/lfsr.c:164-181 | one clock of the cipher's update keeps the bank's shape (see also lines 240-257, 317-325) |
| Lfsr.KeyStream | src/lib/lfsr.c:192-229 | the cipher's first n output bits number n (see also lines 270-307, 338-378) |
| Lfsr.Tick | src/lib/lfsr.c:213 | the bank of arrays becomes the clocked bank of the cipher (see also lines 292, 362) |
| Lfsr.XorOutputs | src/lib/lfsr.c:218-219 | the XOR of the last cells of the registers (see also lines 297-298) |
| Lfsr.ReadOutputs | src/lib/lfsr.c:370 | a fresh array of the last cells of the registers |
| Lfsr.SemibentOutputs | src/lib/lfsr.c:370-372 | all5's output bit: the combiner applied to the five last cells |
| Lfsr.Emit | src/lib/lfsr.c:218-219 | the output bit of the cipher for the current bank (see also lines 297-298, 370-372) |
| Lfsr.Generate | src/lib/lfsr.c:192-229 | dest[0..n) holds the cipher's first n key-stream bits and nothing past n changes (see also lines 270-307, 338-378) |
| Lfsr.GenerateWith | src/lib/lfsr.c:192-229 | the same for any polynomial vectors of degree above 10 (see also lines 270-307, 338-378) |
| Lfsr.A51Cipher | src/lib/lfsr.c:192-229 | a5_1 writes the first n bits of A5/1's key stream |
| Lfsr.Maj5Cipher | src/lib/lfsr.c:270-307 | maj5 writes the first n bits of MAJ5's key stream |
| Lfsr.All5Cipher | src/lib/lfsr.c:338-378 | all5 writes the first n bits of ALL5's key stream |
| Lfsr.RunBits | src/lib/lfsr.c:164-181 | clocking keeps a 0/1 bank 0/1 (see also lines 240-257, 317-325) |
| Lfsr.XorAllBit | src/lib/lfsr.c:218-219 | the XOR of 0/1 outputs is 0/1 (see also lines 297-298) |
| Lfsr.Semibent | src/lib/lfsr.c:371-372 | the ALL5 combiner x0x3 + x1x2 + x1x4 + x2x3, each product parenthesised as C's precedence groups it; on 0/1 outputs it is 0/1 |
| Lfsr.SemibentForm | src/lib/lfsr.c:371-372 | on 0/1 inputs the combiner x0x3 + x1x2 + x1x4 + x2x3 is 1 exactly when one and only one of x1(x2 + x4) and x3(x0 + x2) is 1 |
| Lfsr.SemibentWeight | src/lib/lfsr.c:365-372 | the combiner is 1 on 12 of the 32 inputs in {0,1}^5, so it is not balanced |
| Lfsr.CombineBit | src/lib/lfsr.c:218-219 | a 0/1 bank outputs a 0/1 bit (see also lines 297-298, 370-372) |
| Lfsr.KeyStreamAt | src/lib/lfsr.c:213-222 | bit k of the key stream is the output of the loaded bank after 100 warm-up clocks and k more (see also lines 292-300, 362-375) |
| Lfsr.KeyStreamBits | src/lib/lfsr.c:192-229 | a 0/1 key gives a 0/1 key stream (see also lines 270-307, 338-378) |
| Lfsr.KeyStreamPrefix | src/lib/lfsr.c:216-222 | asking for fewer bits gives a prefix of the same stream (see also lines 294-300, 364-375) |
| Lfsr.Step1011 | src/lib/test/test_lfsr.c:43-67 | one clock of x^3 + x^2 + 1 takes a b c to (b + c) a b |
| Lfsr.LfsrVector | src/lib/test/test_lfsr.c:43-67 | ten clocks of x^3 + x^2 + 1 from 1 0 1 give 1 1 0 0 1 0 1 1 1 0 |
| Lfsr.LfsrVectorTwo | src/lib/test/test_lfsr.c:69-97 | ten clocks of x^3 + x^2 + 1 from 1 1 0 give 1 0 0 1 0 1 1 1 0 0 |
| Lfsr.PeriodVector | src/lib/test/test_lfsr.c:8-31 | from 0 0 1 the stopping test for x^3 + x^2 + 1 first holds after 7 clocks |
| Rng.InitNext | src/lib/rng.c:46 | each entry after the seed keeps only the low 16 bits of the product |
| Rng.InitPrefix | src/lib/rng.c:43-47 | the first n entries init_generator writes: entry 0 is the seed and every later entry is at most 0xffff |
| Rng.InitTable | src/lib/rng.c:39-48 | the seeded table has 624 entries |
| Rng.InitPrefixAt | src/lib/rng.c:45-46 | in any prefix, entry i is computed from entry i - 1 and i |
| Rng.Twisted | src/lib/rng.c:55-59 | rewriting entries 0 .. k-1 in order keeps the table at 624 entries |
| Rng.Regenerate | src/lib/rng.c:50-60 | generate_untampered keeps the table at 624 entries |
| Rng.TwistedAt | src/lib/rng.c:55-59 | once the in-place rewrite has passed entry j, that entry keeps its new value; before that it still holds the old one |
| Rng.RegenerateReads | src/lib/rng.c:56-58 | entry i is mixed from the old entries i and i + 1, except the last entry, which reads the new entry 0, and from the old entry i + 397 before the wrap and the new entry i - 227 after it |
| Rng.Temper | src/lib/rng.c:66-70 | the tempering, with arithmetic right shifts, always clears the sign bit, so extract_number never returns a negative int |
| Rng.Next | src/lib/rng.c:62-74 | one extract_number call keeps the index below 624 and the table at 624 entries |
| Rng.States | src/lib/rng.c:62-74 | successive extract_number calls: each state is the previous one advanced by one call |
| Rng.Regenerated | src/lib/rng.c:50-60 | r successive regenerations keep the table at 624 entries |
| Rng.StatesAt | src/lib/rng.c:62-74 | after k calls from a freshly seeded state the index is k mod 624 and the table has been regenerated ceil(k / 624) times |
| Rng.Rounds | src/lib/rng.c:65 | how one more call moves the round count and the index modulo 624 (see also line 72) |
| Rng.WordAt | src/lib/rng.c:62-74 | word k of the stream is entry k mod 624 of the table regenerated k / 624 + 1 times, tempered |
| Rng.SeedWord | src/lib/rng.c:95 | the seed word's low byte is the first seed byte (a little-endian host) |
| Rng.FrngBytes | src/lib/rng.c:92-102 | frng's output has len bytes |
| Rng.FrngByteAt | src/lib/rng.c:97-99 | byte k of frng's output is the low byte of the tempered entry k mod 624 of the seeded table, regenerated k / 624 + 1 times |
| Rng.FrngPrefix | src/lib/rng.c:98-99 | a shorter frng output is a prefix of a longer one from the same seed |
| Rng.Twister.Current | src/lib/rng.c:36-37 | the generator's table and index form a state with index below 624 and 624 entries |
| Rng.Twister.constructor | src/lib/rng.c:36-37 | the static table and index start with 624 zero entries and index 0 |
| Rng.Twister.InitGenerator | src/lib/rng.c:39-48 | the index becomes 0, entry 0 the seed and every other entry at most 0xffff; the table is the seeded table |
| Rng.Twister.GenerateUntampered | src/lib/rng.c:50-60 | the table is regenerated in place, entry by entry in index order |
| Rng.Twister.ExtractNumber | src/lib/rng.c:62-74 | the new state and the returned word are one step of the generator's state function |
| Rng.Twister.Frng | src/lib/rng.c:92-102 | dest[0..len) holds the low bytes of len successive words after seeding, nothing past len changes, and the generator is left len calls after seeding |
| Rng.SrngBytes | src/lib/rng.c:121-135 | srng's output covers len rounded up to whole 3-byte blocks |
| Rng.Srng | src/lib/rng.c:121-135 | dest holds the CBC encryption of len zero bytes under key seed[0..3) and IV (seed[3], 0, 0); nothing past the padded length changes |
| Rng.ClearAndEncrypt | src/lib/rng.c:131-132 | bzero then CBC in place gives the CBC encryption of the zero message, for any block function |
| Rng.SrngChain | src/lib/rng.c:121-135 | on the zero message srng's output is a pure chain: block 1 is the encryption of the IV and block n the encryption of block n - 1 |
| Rng.ZeroChain | src/lib/include/bunny24.h:54-62 | CBC over a zero message chains the block function alone, for any block function |
| Rng.PadZeros | src/lib/bunny24.c:423-442 | padding the zero message keeps it all zeros |
| Fsock.CiphersuiteEncode | src/fsock.c:141-179 | a suite exactly for 'A' to 'F' (any other id aborts, None here); hash 4 always; symmetric cipher 1, 2, 3 for A-B, C-D, E-F; asymmetric 5 for A, C, E and 6 for B, D, F |
| Fsock.SuitesDistinct | src/fsock.c:145-175 | the six suites are six different triples: equal encodings mean equal ids |
| Fsock.KeyBit | src/fsock.c:199-200 | each expanded key cell is 0 or 1 |
| Fsock.KeyBits | src/fsock.c:198-202 | the stream-cipher key has 64 cells, the top 40 zero |
| Fsock.KeyBitsAt | src/fsock.c:198-201 | bit k of key byte t sits at cell 8t + k, least significant bit first |
| Fsock.KeyBitsExact | src/fsock.c:198-202 | two session keys give the same expansion exactly when their first three bytes agree |
| Fsock.KeyBitsBits | src/fsock.c:198-202 | the expanded key is 0/1, as all5 and maj5 expect |
| Fsock.ExpandKey | src/fsock.c:186 | the skey loop and the bzero of its top 40 cells build exactly that expansion (see also lines 198-202) |
| Fsock.Bit | src/fsock.c:210-211 | a bit of a byte is 0 or 1 |
| Fsock.Unpack | src/fsock.c:210-211 | a byte unpacks to eight bits |
| Fsock.PackNext | src/fsock.c:210-211 | one more pass of the packing loop shifts the byte left and adds the next bit |
| Fsock.UnpackPack | src/fsock.c:210-211 | packing eight 0/1 bits puts them in the byte most significant first: unpacking gives them back |
| Fsock.PackUnpack | src/fsock.c:210-211 | every byte is the packing of its own bits |
| Fsock.PackByte | src/fsock.c:210-211 | the inner loop packs bits 8i .. 8i + 7 of buf into one byte |
| Fsock.StreamCipher | src/fsock.c:204-207 | cipher id 2 picks ALL5; every other id reaching scipher picks MAJ5, never A5/1 |
| Fsock.Keystream | src/fsock.c:191 | scipher asks the stream cipher for 8 bits per message byte (see also lines 204-207) |
| Fsock.Masked | src/fsock.c:209-213 | the masked message has the message's length |
| Fsock.ScipherBytes | src/fsock.c:181-216 | scipher's output has the message's length |
| Fsock.ScipherInvolution | src/fsock.c:181-216 | applying scipher twice with the same cipher and key restores the message |
| Fsock.MaskedBits | src/fsock.c:209-213 | over a 0/1 stream, byte i of the masked message differs from the message byte by stream bits 8i .. 8i + 7, the first of them in the top bit |
| Fsock.ScipherStream | src/fsock.c:181-216 | byte i of scipher's output differs from byte i of the message by key-stream bits 8i .. 8i + 7, the first in the top bit |
| Fsock.ScipherKey | src/fsock.c:198-202 | only the first three session-key bytes affect scipher |
| Fsock.StreamBuffer | src/fsock.c:191-207 | the buffer holds the len * 8 key-stream bits of the chosen cipher under the expanded key |
| Fsock.MaskBytes | src/fsock.c:209-213 | dest[0..len) is the message masked with the packed buffer, even when dest is s; nothing past len changes |
| Fsock.Scipher | src/fsock.c:181-216 | dest[0..len) holds scipher's output for the old message and nothing past len changes |
| Fsock.SealedLength | src/fsock.c:232-241 | sencrypt writes len bytes for the stream ciphers, and len rounded up to whole 3-byte blocks for BUNNY24-CBC |
| Fsock.Sealed | src/fsock.c:232-241 | the ciphertext has that length |
| Fsock.Opened | src/fsock.c:220-229 | the decrypted text has the ciphertext's length |
| Fsock.SealOpen | src/fsock.c:220-241 | sdecrypt undoes sencrypt under the same suite and key: exactly for the stream ciphers and up to the zero padding for BUNNY24-CBC; sencrypt undoes sdecrypt on whole blocks; for the stream ciphers the two are one function |
| Fsock.Sencrypt | src/fsock.c:232-241 | dest holds the ciphertext of the old message, BUNNY24-CBC for id 1 with "abc" in the key slot and the session key in the IV slot, as the macro's argument order makes it, scipher otherwise; nothing past its length changes |
| Fsock.Sdecrypt | src/fsock.c:220-229 | dest holds the decryption of the old ciphertext in the same way; nothing past its length changes |

## Left out

- Field.Sum, Field.F2Exp, FieldText.Btoi: the C `assert`s (both operands fit in n bits; exponent nonzero; only '0' and '1' characters) are preconditions; what the program does after a failed assert is not modelled.
- Field.Rot: stated for rotation counts with |r| <= n <= 8, the range in which the C shifts are defined; larger counts shift by negative amounts in C, which is undefined behaviour.
- FieldText.Ptos: returns the eight characters; the terminating NUL that ptos writes into a ninth byte of its 8-byte allocation (`src/lib/field.c:108-112`) is not modelled.
- Bunny24.Insbox: for i = 3 the argument must be an element of GF(64); isbox4 passes v to `f2sum(6, v, ...)`, whose assert at `src/lib/field.c:17` rejects any v of 64 or more, and the requires is that assert.
- Bunny24.Sbox, Bunny24.InverseSbox, Bunny24.MixingLayer, Bunny24.InverseMixingLayer, Bunny24.RoundFunction, Bunny24.InverseRoundFunction: require blocks of four elements (values below 64), as every caller in the library passes; results on out-of-range bytes are not stated. The two mixing layers also require dest and v to differ, because the C zeroes dest before it reads v.
- Bunny24.KeySchedule, Bunny24.Bunny24Encrypt, Bunny24.Bunny24Decrypt, Lfsr.KeyLoading, Fsock.StreamBuffer: the heap buffers the C allocates and frees (round keys, register banks, the key-stream buffer) are fresh arrays or sequences of fresh arrays; allocation failure (`sabort`) and `free` are not modelled.
- Cbc.ChainEncrypt, Cbc.Bunny24CbcEncrypt, Rng.Srng, Rng.SrngBytes, Fsock.Sencrypt: require len >= 3 for CBC, because the first block is always read as three bytes; the C reads past a shorter message.
- Cbc.ChainDecrypt, Fsock.Sdecrypt: the loop bound is corrected to whole blocks (see Findings); for CBC the output must not alias the ciphertext, because each step reads the previous ciphertext block after the output would have overwritten it.
- Lfsr.Period: terminates by a ghost bound, a clock count at which the stopping test is known to hold; lfsr_period on a register that never returns to 0...01 or all-zero loops for ever, which is not modelled.
- Rng.SeedWord: `*(int *) seed` is read as a little-endian 32-bit word; other byte orders and int widths are not modelled.
- Rng: `int` is taken to be 32 bits wide and two's complement, and `>>` on a negative int to be the arithmetic shift (`Rng.Sar`, used at `src/lib/rng.c:46`, 57, 67 and 70), which C leaves to the implementation. Under those assumptions: in init_generator (`src/lib/rng.c:46`) `+ i` converts the expression to `size_t`, so the product is unsigned and wraps without overflow; `Rng.InitNext` computes it in 32 bits, which gives the same low 16 bits that the `0xffff` mask keeps; in generate_untampered (`src/lib/rng.c:56-58`) `0x80000000` and `0x9908b0df` are unsigned int, so that arithmetic wraps without overflow; storing the result back into `int` is the implementation-defined conversion, modelled as keeping the 32 bits; in the tempering (`src/lib/rng.c:68-69`) `y << 7` and `y << 15` on a negative int, or with a bit shifted into the sign, are undefined behaviour, and they are modelled as 32-bit shifts.
- Rng.Twister.ExtractNumber: the tempering is modelled step by step. With the arithmetic shift its result never has the sign bit set (`Rng.Temper`), so unlike MT19937's tempering it is not a bijection on 32-bit words; which words collide is not stated.
- Rng: bn_rng and prng read /dev/urandom and call OpenSSL's bignum and primality routines; they are not part of this model.
- Fsock.CiphersuiteEncode: any id outside 'A'..'F' aborts the process in C; here it gives None.
- Sponge: the documentation of spongebunny calls len a bit count; the code uses it as a byte count, which is what is modelled.
- Test vectors not proved, because evaluating the cipher on literals is beyond the verifier's budget: LFSR test 3 (x^11 + x^2 + 1, `src/lib/test/test_lfsr.c:99-137`), the A5/1, MAJ5 and ALL5 streams (`src/lib/test/test_lfsr.c:150-214`), the key schedule of 91 BA 60 (`src/lib/test/test_bunny24.c:80-142`), the encryption vectors (`src/lib/test/test_bunny24.c:153-179, 243-248, 336-346`), the CBC vectors (`src/lib/test/test_bunny24.c:260-311`) and the sponge vectors (`src/lib/test/test_sponge.c:13-26`). The properties behind them (round trips, chaining, stream prefixes) are proved for all inputs.
- The packing vectors (`src/lib/test/test_bunny24.c:29-40`) are not stated one by one: both are instances of `Bunny24.BytesBlockBytes` (every 3-byte input comes back) and of `Bunny24.BlockOf`'s bound that every element is below 64.
- I/O: the socket, FIFO and file routines of `src/fsock.c`, the protocol drivers and the remaining sources are not part of this model.

## Findings

| source | as written | input that shows it | evidently intended | confidence | as-written member | corrected member |
|---|---|---|---|---|---|---|
| src/lib/bunny24.c:398 | the decryption loop runs `for (i=3; i != len+3*(len%3!=0); i+=3)` | len = 4: the bound is 7, and the counter takes 3, 6, 9, ... and never equals it, so the loop reads and writes past the buffers | loop to len rounded up to whole blocks, as encryption pads | not executed | Cbc.DecryptEndMissed | Cbc.ChainDecrypt |
| src/lib/sponge.c:112 | after the squeezing loop a ninth `sqeeze(dest+i, state, offset)` runs with i = 20 | any message: the call writes dest[20..23), three bytes past the 20-byte hash (`src/lib/test/test_sponge.c:9` passes `char hash[20]`) | stop after the 20 digest bytes | not executed | Sponge.SqueezePastHash | Sponge.SpongeHash |
