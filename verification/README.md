# secure-rng in Dafny

A model of the deterministic random bit generator of secure-rng and of the
AES-256 counter-mode engine it encrypts with, with proofs about both.

- `secure_rng.dfy` (module `SecureRng`) models `src/secure-rng.c`. It is the
  CTR_DRBG of NIST SP 800-90A, section 10.2.1: AES-256, no derivation
  function, a 32-byte Key, a 16-byte V and a reseed ceiling of 2^48.
  - The algorithm is first stated on values, for any block cipher `enc`:
    CTR_DRBG_Update (`UpdateAlgorithm`), instantiate
    (`InstantiateAlgorithm`), reseed (`ReseedAlgorithm`) and generate
    (`GenerateAlgorithm`).
  - The context `struct secure_rng_ctx` is the class `DrbgContext`, with
    the arrays `Key` and `V` and the field `reseedCounter`. Its methods
    follow the C functions statement by statement. Each is proved to leave
    exactly the state, return code and output bytes that those functions
    give.
  - The methods encrypt with `Aes256.Ctr256`. They hold for the cipher
    `enc` that `aesctr256` computes, as the precondition `IsAes256(aes, enc)`
    says. `AesCipher(aes)` supplies such a cipher.
- `aes.dfy` (module `Aes256`) models `src/aarch64/aes.c`.
  - The key schedule `expand256` is proved to start with the two halves of
    the key and to satisfy the word recurrence of FIPS 197, section 5.2:
    w[i] = w[i - 8] xor temp for 8 <= i < 60 (`KeyScheduleRecurrence`).
  - The counter increment `increment_be_neon` is the 32-bit counter of
    NIST SP 800-38A, appendix B.1. After n blocks, bytes 0 .. 11 of the
    counter are unchanged and bytes 12 .. 15 have advanced by n modulo 2^32
    (`CounterAtSpec`): the low 32 bits wrap without carrying into the rest.
  - `aesctr256_direct_x4` is proved to write the counter-mode keystream of
    NIST SP 800-38A, section 6.5, whichever way its blocks split between
    the 4-way loop and the one-block loop.
  - The hardware round instructions `vaeseq_u8` and `vaesmcq_u8` are the
    two uninterpreted function fields of an `Intrinsics` value passed to
    every operation.
- `byteseq.dfy` (module `ByteSeq`) models the byte buffers: bytewise XOR,
  big-endian integers with ripple-carry increment, and `memcpy` into a
  buffer at an offset (`Splice`, `CopyInto`).

The model follows the C definitions:
- `src/secure-rng.c` never checks the caller's buffers (entropy,
  personalization, additional data, output) for NULL, so there is no error
  path for a NULL buffer with a non-zero length. The one NULL test,
  `provided_data` in `drbg_update` (`src/secure-rng.c:44`), is modelled as
  `None`.
- `include/secure-rng.h:25` declares `secure_rng_set_seeder` and
  `include/secure-rng.h:28` declares a 4-argument `secure_rng_bytes`; no
  file defines the first, and the definition at `src/secure-rng.c:107` has
  three arguments. So the model has no prediction-resistance hook: nothing
  reads `reseed_interval` or `resistance_seeder`
  (`include/secure-rng.h:17-18`).
- `secure_rng_seed` (`src/secure-rng.c:54-85`) leaves those two fields alone.
- `kInitMask` is a constant of the code. That it equals the AES-256
  encryption of the counters 1, 2, 3 under the zero key is a hypothesis
  of `InstantiateMaskCancels`; the model does not assume it.

## Model

| member | source | states |
|---|---|---|
| ByteSeq.Zeros | src/secure-rng.c:78-79 | `memset(p, 0, n)`: n bytes, all zero |
| ByteSeq.Xor | src/secure-rng.c:44-48 | bytewise XOR: byte i of the result is a[i] ^ b[i] |
| ByteSeq.XorPrefix | src/secure-rng.c:63-65 | XORing the first n bytes: bytes below n are e[i] ^ p[i], the rest of e is kept |
| ByteSeq.XorPrefixStep | src/secure-rng.c:63-65 | one more pass of `seed_material[i] ^= personalization_string[i]` XORs exactly byte i |
| ByteSeq.XorPrefixPad | src/secure-rng.c:63-65 | XORing the first `len` bytes of p equals XORing p padded with zeros to 48 bytes |
| ByteSeq.XorInto | src/secure-rng.c:96-98 | the XOR loop leaves `dst` as its old contents with the first n bytes XORed with src |
| ByteSeq.CopyInto | src/secure-rng.c:32-33 | `memcpy(dst + off, src, n)` writes src at off and changes nothing else |
| ByteSeq.SpliceBytewise | src/secure-rng.c:123-129 | a buffer holding src at off and its old bytes elsewhere is the splice of src into it |
| ByteSeq.Pad | src/secure-rng.c:63-65 | p extended with zero bytes to n bytes: p first, zeros after |
| ByteSeq.Splice | src/secure-rng.c:123 | memory after `memcpy(s + off, src, n)`: the same length, src at off, s before and after it |
| ByteSeq.XorMaskTwice | src/secure-rng.c:74-76 | XORing the mask twice gives back the original |
| ByteSeq.BeValueBound | src/secure-rng.c:13-22 | n big-endian bytes name a number below 256^n |
| ByteSeq.IncrementSum | src/secure-rng.c:13-22 | the ripple carry adds one to the big-endian value, or wraps to zero from the largest |
| ByteSeq.Increment | src/secure-rng.c:13-22 | the ripple-carry increment keeps the length; its value is stated by `IncrementSum` and its bytes by `IncrementTrailing` |
| ByteSeq.IncrementTrailing | src/secure-rng.c:14-17 | trailing 0xff bytes become 0x00 and the prefix before them is incremented |
| Aes256.ShiftLanes | src/aarch64/aes.c:17 | `vextq_u8(0, a, 12)`: bytes 0..3 are zero and byte i >= 4 is byte i - 4 of a |
| Aes256.PrefixXorLane0 | src/aarch64/aes.c:17-22 | lane 0 of the three shift-and-XOR steps is lane 0 of a |
| Aes256.PrefixXorLane1 | src/aarch64/aes.c:17-22 | byte i of lane 1 of the shift-and-XOR steps is a[i - 4] ^ a[i] |
| Aes256.PrefixXorLane2 | src/aarch64/aes.c:17-22 | byte i of lane 2 is a[i - 8] ^ a[i - 4] ^ a[i] |
| Aes256.PrefixXorLane3 | src/aarch64/aes.c:17-22 | byte i of lane 3 is a[i - 12] ^ a[i - 8] ^ a[i - 4] ^ a[i] |
| Aes256.PrefixXorLanesBytes | src/aarch64/aes.c:17-22 | byte i of the three shift-and-XOR steps is the XOR of byte i of lanes 0..i/4 |
| Aes256.Splat | src/aarch64/aes.c:16 | `vdupq_laneq_s32`: every lane of the result is the given word |
| Aes256.PrefixXorLanesSpec | src/aarch64/aes.c:17-22 | lane j of the three shift-and-XOR steps is the XOR of lanes 0..j |
| Aes256.XorWords | src/aarch64/aes.c:18-23 | `veorq_u8` acts lane by lane: lane j of a ^ b is lane j of a XOR lane j of b |
| Aes256.AssistEven | src/aarch64/aes.c:14-24 | word j of `assist256_1(a, b)` is the XOR of words 0..j of a, XOR word 3 of b |
| Aes256.AssistEvenRecurrence | src/aarch64/aes.c:14-24 | `assist256_1` is the FIPS 197 recurrence w[i] = w[i-8] xor temp |
| Aes256.KeygenShuffle | src/aarch64/aes.c:47-55 | the byte selection after AESE with a zero key: lanes 1 and 3 are RotWord of lanes 0 and 2 |
| Aes256.RconLanes | src/aarch64/aes.c:56 | the vector {0, rcon, 0, rcon}: lanes 0 and 2 zero, lanes 1 and 3 the constant |
| Aes256.KeygenAssist | src/aarch64/aes.c:47-57 | `aeskeygenassist`: lanes 0 and 2 are those of the selection; lanes 1 and 3 are RotWord of lanes 0 and 2, XOR rcon |
| Aes256.AssistOdd | src/aarch64/aes.c:26-45 | word j of `assist256_2(a, c)` is the XOR of words 0..j of c, XOR word 2 of the selection of a; no round constant |
| Aes256.AssistOddRecurrence | src/aarch64/aes.c:26-45 | `assist256_2` is the FIPS 197 recurrence with SubWord and no RotWord |
| Aes256.RconDoubles | src/aarch64/aes.c:66-90 | the round constants 0x01..0x40 start at one and double each time |
| Aes256.SchedulePairs | src/aarch64/aes.c:63-88 | h pairs of round keys are 2h keys, the first two being the two 16-byte halves of the key |
| Aes256.KeySchedule | src/aarch64/aes.c:59-91 | the schedule has exactly 15 round keys, and keys 0 and 1 are the halves of the user key |
| Aes256.SchedulePairsStep | src/aarch64/aes.c:66-68 | one pair of steps of `expand256` extends the schedule by one pair |
| Aes256.KeyScheduleLast | src/aarch64/aes.c:90 | the last even step completes the 15 keys |
| Aes256.PairStepPrefix | src/aarch64/aes.c:66-88 | a pair step holds in any schedule that extends the one it holds in |
| Aes256.SchedulePairsPrefix | src/aarch64/aes.c:66-88 | the first n - 1 pairs are a prefix of the first n |
| Aes256.PairsLast | src/aarch64/aes.c:66-88 | the pair the first n pairs add last is `assist256_1` with Rcon(n - 1) and `assist256_2` of the keys before it |
| Aes256.PairsGrow | src/aarch64/aes.c:66-88 | adding a pair keeps every earlier pair step |
| Aes256.PairsKey | src/aarch64/aes.c:66-88 | pair h of the seven pairs is a pair step |
| Aes256.SchedulePairStep | src/aarch64/aes.c:66-88 | keys 2h and 2h + 1 of the schedule are `assist256_1` with Rcon(h) and `assist256_2` of the two keys before each |
| Aes256.ScheduleLastKey | src/aarch64/aes.c:90 | key 14 is `assist256_1` of keys 12 and 13 with Rcon(7) |
| Aes256.KeyScheduleScheduled | src/aarch64/aes.c:59-91 | the schedule of every 32-byte key has 15 keys, each pair after the first a pair step and key 14 the last step |
| Aes256.ScheduledEven | src/aarch64/aes.c:66-90 | in such a schedule, even key 2h is `assist256_1` of keys 2h - 2 and 2h - 1 with Rcon(h) |
| Aes256.ScheduledOdd | src/aarch64/aes.c:66-88 | in such a schedule, odd key 2h + 1 is `assist256_2` of keys 2h and 2h - 1 |
| Aes256.ScheduleEvenKey | src/aarch64/aes.c:66-90 | key 2h of the schedule of a key is `assist256_1` of the two keys before it with Rcon(h) |
| Aes256.ScheduleOddKey | src/aarch64/aes.c:66-88 | key 2h + 1 of the schedule of a key is `assist256_2` of the two keys before it |
| Aes256.ScheduledEvenChain | src/aarch64/aes.c:14-24 | word j >= 1 of an even key is word j of the key two back XOR word j - 1 of the same key |
| Aes256.ScheduledOddChain | src/aarch64/aes.c:26-45 | word j >= 1 of an odd key is word j of the key two back XOR word j - 1 of the same key |
| Aes256.RecurrenceRotWord | src/aarch64/aes.c:66-90 | for i mod 8 = 0, w[i] = w[i - 8] xor SubWord(RotWord(w[i - 1])) xor Rcon[i / 8] |
| Aes256.RecurrenceSubWord | src/aarch64/aes.c:66-88 | for i mod 8 = 4, w[i] = w[i - 8] xor SubWord(w[i - 1]) |
| Aes256.RecurrenceEvenChain | src/aarch64/aes.c:66-90 | for i mod 8 in 1..3, w[i] = w[i - 8] xor w[i - 1] |
| Aes256.RecurrenceOddChain | src/aarch64/aes.c:66-88 | for i mod 8 in 5..7, w[i] = w[i - 8] xor w[i - 1] |
| Aes256.ScheduledRecurrence | src/aarch64/aes.c:59-91 | every such schedule satisfies w[i] = w[i - 8] xor temp for 8 <= i < 60 |
| Aes256.KeyScheduleRecurrence | src/aarch64/aes.c:59-91 | FIPS 197, section 5.2, for AES-256: the schedule of a key satisfies w[i] = w[i - 8] xor temp for 8 <= i < 60 |
| Aes256.Expand256 | src/aarch64/aes.c:59-91 | `keyExp[0..14]` is the key schedule of the user key; nothing past it changes |
| Aes256.Rev32 | src/aarch64/aes.c:95-97 | `vrev32q_u8`: lane j read little-endian is lane j of the input read big-endian |
| Aes256.AddLanes | src/aarch64/aes.c:96 | `vaddq_s32`: each lane is the sum of the lanes modulo 2^32 |
| Aes256.LaneOfLeBytes | src/aarch64/aes.c:96 | a lane holding the little-endian bytes of x reads back as x |
| Aes256.IncrementBe32 | src/aarch64/aes.c:93-98 | bytes 0..11 kept; bytes 12..15 as a big-endian number gain one modulo 2^32 |
| Aes256.IncrementBeNeonLanes | src/aarch64/aes.c:93-98 | reverse, add {0,0,0,1}, reverse back is a big-endian add of one to bytes 12..15 |
| Aes256.Be32Successor | src/aarch64/aes.c:96 | a 32-bit big-endian add of one is the ripple-carry increment of the four bytes |
| Aes256.IncrementBeNeon | src/aarch64/aes.c:93-98 | `increment_be_neon` is the 32-bit counter step of NIST SP 800-38A, appendix B.1: bytes 12..15 incremented by ripple carry, bytes 0..11 kept |
| Aes256.Increment32Value | src/aarch64/aes.c:93-98 | the 32-bit increment adds one modulo 2^32 |
| Aes256.CounterAtSpec | src/aarch64/aes.c:113-120 | after n blocks the upper 96 bits are unchanged and the low 32 bits have advanced by n mod 2^32 |
| Aes256.CounterAtAdd | src/aarch64/aes.c:187-189 | m counter steps then n more are m + n steps |
| Aes256.IterateAdd | src/aarch64/aes.c:114-120 | m applications of a step followed by n more are m + n applications |
| Aes256.BlocksSplit | src/aarch64/aes.c:104-106 | a block sequence of m + n blocks is the first m followed by the next n |
| Aes256.Keystream | src/aarch64/aes.c:100-209 | n keystream blocks are 16n bytes |
| Aes256.BlocksAt | src/aarch64/aes.c:180-183 | block i of a block sequence is the i-th iterate, encrypted |
| Aes256.KeystreamBlock | src/aarch64/aes.c:188-204 | keystream block i is the encryption of the counter after i increments |
| Aes256.KeystreamSplit | src/aarch64/aes.c:104-106 | the keystream does not depend on how blocks split between the two loops |
| Aes256.KeystreamAppend | src/aarch64/aes.c:187-206 | appending n more blocks from the advanced counter extends the keystream and counter |
| Aes256.KeystreamFour | src/aarch64/aes.c:113-183 | four blocks from counter c are the encryptions of c and its next three counters |
| Aes256.FullRoundsFirst | src/aarch64/aes.c:113-169 | round 0 taken first and then n rounds with the later keys is n + 1 rounds |
| Aes256.Encrypt | src/aarch64/aes.c:188-204 | one block: round 0, then 12 AESE+AESMC rounds with keys 1..12, AESE with key 13, XOR key 14 |
| Aes256.RoundsX4 | src/aarch64/aes.c:122-178 | four registers holding round 0 of x1..x4 end up holding the encryptions of x1..x4 |
| Aes256.EncryptX4 | src/aarch64/aes.c:113-178 | the four-lane body computes four keystream blocks, each lane the same cipher, and the counter four steps on |
| Aes256.EncryptOne | src/aarch64/aes.c:188-204 | the one-block body computes one keystream block and the counter one step on |
| Aes256.KeystreamX4 | src/aarch64/aes.c:112-185 | the 4-way loop yields 4 * (blocks / 4) keystream blocks |
| Aes256.KeystreamSingle | src/aarch64/aes.c:187-208 | the remainder loop yields the remaining keystream blocks from where the 4-way loop stopped |
| Aes256.CtrDirectX4 | src/aarch64/aes.c:100-209 | `out + off` receives exactly bytes / 16 keystream blocks; a `bytes % 16` tail and everything else is unchanged |
| Aes256.Ctr256 | src/aarch64/aes.c:216-220 | `aesctr256` is `expand256` followed by the engine on the same counter and length |
| Aes256.Ctr256ZeroIv | src/aarch64/aes.c:211-214 | `aesctr256_zeroiv` is `aesctr256` with an all-zero counter |
| Aes256.KeystreamOne | src/aarch64/aes.c:188-204 | a one-block request yields the encryption of the counter itself |
| SecureRng.SuccessorValue | src/secure-rng.c:13-22 | V read as a big-endian 128-bit integer becomes (V + 1) mod 2^128 |
| SecureRng.SuccessorBytes | src/secure-rng.c:13-22 | trailing 0xff bytes become 0x00, the rightmost other byte gains one, bytes left of it are kept |
| SecureRng.BlockEncrypt | src/secure-rng.c:29 | `aesctr256` of one block under Key at counter V is the first keystream block: E(Key, V) |
| SecureRng.AesCipher | src/secure-rng.c:29 | the cipher `aesctr256` computes on one block satisfies `IsAes256` |
| SecureRng.Outputs | src/secure-rng.c:39-42 | n increment-then-encrypt steps produce 16n bytes |
| SecureRng.OutputsBlock | src/secure-rng.c:39-42 | output block k is E(Key, V after k + 1 increments) |
| SecureRng.OutputsNext | src/secure-rng.c:119-121 | one more increment and encryption appends one more block |
| SecureRng.OutputsStep | src/secure-rng.c:40-41 | one loop pass leaves V one step further and the blocks one longer |
| SecureRng.UpdateAlgorithm | src/secure-rng.c:36-52 | CTR_DRBG_Update yields a 32-byte Key and a 16-byte V |
| SecureRng.OutputsThree | src/secure-rng.c:39-42 | the three blocks are E(K, V+1), E(K, V+2), E(K, V+3), all under the old key |
| SecureRng.UpdateLayout | src/secure-rng.c:36-52 | Key ‖ V becomes E(K,V+1) ‖ E(K,V+2) ‖ E(K,V+3), XORed with the provided data when it is not NULL |
| SecureRng.RoundIsUpdateWithZeros | src/secure-rng.c:24-34 | `drbg_round` is `drbg_update` with 48 zero bytes |
| SecureRng.SeedMaterial | src/secure-rng.c:61-76 | the seed material is 48 bytes |
| SecureRng.InstantiateAlgorithm | src/secure-rng.c:54-85 | BadMaxlen exactly when personalization_len > 48, with the state unchanged; otherwise success, a well-formed state and counter 1 |
| SecureRng.InstantiateMaskCancels | src/secure-rng.c:67-81 | if kInitMask equals E_0(1) ‖ E_0(2) ‖ E_0(3), seeding leaves Key ‖ V = entropy XOR personalization |
| SecureRng.ReseedAlgorithm | src/secure-rng.c:87-105 | BadMaxlen exactly when additional_data_len > 48, with the state unchanged; otherwise success, a well-formed state and counter 1 |
| SecureRng.ReseedWithoutAdditional | src/secure-rng.c:91-101 | with no additional data the reseed is an update with the entropy alone |
| SecureRng.BlocksNeeded | src/secure-rng.c:119-131 | ceil(xlen / 16) blocks cover xlen bytes with fewer than 16 to spare |
| SecureRng.BlocksNeededOf | src/secure-rng.c:119-131 | the loop's block count is ceil(xlen / 16) |
| SecureRng.GenerateAlgorithm | src/secure-rng.c:107-137 | BadMaxlen exactly when xlen > 65535; NeedReseed exactly when xlen fits and the counter exceeds 2^48; on error no output and no state change; on success xlen bytes and the counter plus one, also when xlen is 0 |
| SecureRng.GenerateBlock | src/secure-rng.c:119-131 | output bytes 16k .. min(16k + 16, xlen) are the leading bytes of E(Key, V0 + k + 1) |
| SecureRng.DrbgContext.constructor | include/secure-rng.h:13-16 | a context in zeroed storage: zero Key and V, counter 0 |
| SecureRng.DrbgContext.IncrementV | src/secure-rng.c:13-22 | `drbg_increment_v` leaves V as its 128-bit successor |
| SecureRng.DrbgContext.NextBlock | src/secure-rng.c:28-29 | increment V, then `aesctr256` of one block writes E(Key, V) at the offset and nothing else |
| SecureRng.DrbgContext.EncryptThree | src/secure-rng.c:39-42 | temp holds the three output blocks under the key as it was; V has advanced by three |
| SecureRng.DrbgContext.Update | src/secure-rng.c:36-52 | `drbg_update` leaves Key ‖ V as CTR_DRBG_Update of the old Key, V and provided data |
| SecureRng.DrbgContext.Round | src/secure-rng.c:24-34 | `drbg_round` leaves Key ‖ V as CTR_DRBG_Update with no provided data |
| SecureRng.DrbgContext.Commit | src/secure-rng.c:32-33 | Key becomes temp[0..32] and V becomes temp[32..48] |
| SecureRng.DrbgContext.Seed | src/secure-rng.c:54-85 | return code and new state are those of instantiate; the counter bound is kept |
| SecureRng.DrbgContext.Reseed | src/secure-rng.c:87-105 | return code and new state are those of reseed; the counter bound is kept |
| SecureRng.DrbgContext.EmitBlock | src/secure-rng.c:120-130 | one pass: V advances, min(xlen, 16) bytes of E(Key, V) land at x + i, nothing else is written, and i and xlen move on as in the C code |
| SecureRng.DrbgContext.FillOutput | src/secure-rng.c:119-131 | the loop writes the first xlen bytes of ceil(xlen / 16) output blocks to x and nothing past them, and advances V ceil(xlen / 16) times |
| SecureRng.DrbgContext.Bytes | src/secure-rng.c:107-137 | return code, new state and bytes written are those of generate; the counter stays at most 2^48 + 1, so it never wraps |

## Left out

- The CPU feature detection in `src/aarch64/detect.cpp` and `src/x86/detect.cpp`, and the demo and benchmark programs under `misc/`: platform queries, timing, printing and `/dev/urandom`.
- `secure_rng_set_seeder`, `reseed_interval` and `resistance_seeder`: declared in `include/secure-rng.h` but neither defined nor read by the modelled code. The header also declares `secure_rng_bytes` with a fourth `resistance` argument that the definition does not have; the model follows the definition.
- The `aesctr256_hardware` and `aesctr256_software` dispatch names of `include/aes.h`: declarations only.
- The internals of `vaeseq_u8` and `vaesmcq_u8` (SubBytes, ShiftRows, MixColumns): hardware instructions with no definition in the code. They are uninterpreted.
- NULL buffers: the code never checks the caller's buffers (entropy, personalization, additional data, output) for NULL, so a NULL buffer is not modelled. The one NULL test, `provided_data` in `drbg_update` (`src/secure-rng.c:44`), is modelled as `None`.
- Zeroisation of `temp` and `seed_material`: the code performs none, and freed stack memory is outside the model.
- The byte order of NEON lanes: `LaneValue`, `LeBytes32` and `RconLanes` read and write 32-bit lanes little-endian, as aarch64 does in its usual little-endian mode; this matters for `vaddq_s32` in `increment_be_neon` and for the `rcon` lanes of `aeskeygenassist`. Big-endian aarch64 is not modelled.
- The 16-byte alignment attribute of the struct and of the 128-bit loads and stores.
- SecureRng.DrbgContext.Bytes: the output buffer must not alias `Key` or `V`, and must hold xlen bytes when xlen is at most 65535. The C code would write to any address it is given.
- SecureRng.DrbgContext.Valid: the `uint64_t` reseed counter is an unbounded `nat` kept at most 2^48 + 1 by every operation, so its wrap-around at 2^64 is never reached; a context whose counter starts above that bound is not modelled.
- SecureRng.DrbgContext.constructor: the C code seeds an uninitialised struct; the model starts from zeroed storage. `Seed` overwrites Key and V whatever they held; the counter must be within the bound of `Valid` (at most 2^48 + 1), so an uninitialised struct whose counter holds a larger value is not modelled.
- Aes256.RoundsX4 and Aes256.EncryptOne: the unrolled AESE/AESMC rounds with keys 1 .. 12 are a loop over the round index. Round 0 stays outside the loop, interleaved with the counter increments as in the C code (`EncryptX4`), and the final AESE with key 13 and XOR with key 14 follow the loop. The four registers advance round by round together.
- Aes256.Expand256 and Aes256.CtrDirectX4: they collect the round keys and output blocks in a sequence and store them together at the end, since nothing reads the arrays in between.
- Helper methods that are not in the C code group its statements: `NextBlock` (increment plus one-block `aesctr256`), `EncryptThree` (the loop shared by `drbg_round` and `drbg_update`), `Commit` (the two closing `memcpy` calls), `EmitBlock` (the body of the `secure_rng_bytes` loop), `FillOutput` (that loop), `XorInto` (the XOR loops), and `EncryptX4` and `RoundsX4` (the body of the 4-way loop of `aesctr256_direct_x4` before its stores, and its rounds after round 0).
- Aes256.Ctr256, Aes256.Ctr256ZeroIv and Aes256.CtrDirectX4: the byte count is a `nat`. The `int bytes` parameter of `aesctr256` and `aesctr256_zeroiv` (`src/aarch64/aes.c:211,216`) and the `int` block counts of `aesctr256_direct_x4` (`src/aarch64/aes.c:104-106`) are not modelled for negative values or values above INT_MAX.
