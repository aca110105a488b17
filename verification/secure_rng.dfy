/** The CTR_DRBG of src/secure-rng.c: NIST SP 800-90A, section 10.2.1, with
    AES-256 as the block cipher, no derivation function, a 48-byte seed
    length (a 32-byte key and a 16-byte V) and a reseed ceiling of 2^48.

    The first half of the module is the algorithm of the standard, on
    values and for any block cipher enc: CTR_DRBG_Update (10.2.1.2),
    instantiate (10.2.1.3.1), reseed (10.2.1.4.1) and generate (10.2.1.5.1),
    with the error codes and the initialisation mask of this implementation.
    The second half is the context struct as a class whose methods follow
    the C code statement by statement, encrypt with aesctr256 (Aes256.Ctr256),
    and are proved to compute exactly those functions for the cipher enc that
    aesctr256 computes (IsAes256). */
module SecureRng {
  import opened ByteSeq
  import opened Aes256

  // Return codes and limits (include/secure-rng.h, src/secure-rng.c).
  const Success: int := 0
  const BadMaxlen: int := -1
  const NeedReseed: int := -2
  const MaxGenerateLength: nat := 65535
  const MaxReseedCount: nat := 0x1_0000_0000_0000
  const TwoTo64: nat := 0x1_0000_0000_0000_0000
  const TwoTo128: nat := 0x1_0000_0000_0000_0000_0000_0000_0000_0000

  /** kInitMask: XORed into the seed material by secure_rng_seed. */
  const InitMask: seq<Byte> := [
    0x53, 0x0f, 0x8a, 0xfb, 0xc7, 0x45, 0x36, 0xb9, 0xa9, 0x63, 0xb4, 0xf1,
    0xc4, 0xcb, 0x73, 0x8b, 0xce, 0xa7, 0x40, 0x3d, 0x4d, 0x60, 0x6b, 0x6e,
    0x07, 0x4e, 0xc5, 0xd3, 0xba, 0xf3, 0x9d, 0x18, 0x72, 0x60, 0x03, 0xca,
    0x37, 0xa6, 0x2a, 0x74, 0xd1, 0xa2, 0xf5, 0x8e, 0x75, 0x06, 0x35, 0x8e]

  /** An argument that may be NULL. */
  datatype Option<T> = None | Some(value: T)

  /** The working state that CTR_DRBG_Update replaces. */
  datatype KeyV = KeyV(key: seq<Byte>, v: seq<Byte>)

  /** Key, V and reseed_counter of struct secure_rng_ctx. */
  datatype State = State(key: seq<Byte>, v: seq<Byte>, reseedCounter: nat)

  /** A return code and the state after the call. */
  datatype Outcome = Outcome(status: int, state: State)

  /** A return code, the state after the call and the bytes written to the caller. */
  datatype Generated = Generated(status: int, state: State, output: seq<Byte>)

  predicate WellFormed(s: State)
  {
    |s.key| == 32 && |s.v| == 16
  }

  // ---------------------------------------------------------------------
  // V and the output blocks
  // ---------------------------------------------------------------------

  /** V + 1: the big-endian ripple-carry increment of all 16 bytes. */
  function Successor(v: Block): Block
  {
    Increment(v)
  }

  /** V read as a big-endian 128-bit integer gains one modulo 2^128. */
  lemma SuccessorValue(v: Block)
    ensures BeValue(Successor(v)) == (BeValue(v) + 1) % TwoTo128
  {
    IncrementSum(v);
    BeValueBound(v);
    Pow256Sixteen();
  }

  lemma Pow256Sixteen()
    ensures Pow256(16) == TwoTo128
  {
    assert Pow256(4) == 0x1_0000_0000;
    assert Pow256(8) == 0x1_0000_0000_0000_0000;
    assert Pow256(12) == 0x1_0000_0000_0000_0000_0000_0000;
  }

  /** With j the rightmost byte that is not 0xff (or -1 if there is none): the
      bytes after j become 0x00, byte j gains one, the bytes before j are kept. */
  lemma SuccessorBytes(v: Block, j: int)
    requires -1 <= j < 16
    requires forall k :: j < k < 16 ==> v[k] == 0xff
    requires j >= 0 ==> v[j] != 0xff
    ensures j >= 0 ==> Successor(v) == v[..j] + [v[j] + 1] + Zeros(15 - j)
    ensures j == -1 ==> Successor(v) == Zeros(16)
  {
    IncrementTrailing(v, j);
    if j >= 0 {
      var p := v[..j + 1];
      assert p[..j] == v[..j];
    }
  }

  /** V after n increments. */
  function VAfter(v: Block, n: nat): Block
  {
    Iterate(Successor, v, n)
  }

  /** A block cipher: for each key, the encryption of one block. */
  type BlockCipher = seq<Byte> -> Block -> Block

  /** aesctr256 on a single 16-byte block: E(Key, V) under the AES-256 key
      schedule and rounds of src/aarch64/aes.c. */
  function BlockEncrypt(aes: Intrinsics, key: seq<Byte>, v: Block): (r: Block)
    requires |key| == 32
    ensures r == Keystream(aes, KeySchedule(aes, key), v, 1)
  {
    KeystreamOne(aes, KeySchedule(aes, key), v);
    Encrypt(aes, KeySchedule(aes, key), v)
  }

  /** enc is AES-256 as aesctr256 computes it, for every 32-byte key. The
      algorithm below is that of the standard for any block cipher; the
      methods of the context require this of the cipher they are proved
      against. */
  ghost predicate IsAes256(aes: Intrinsics, enc: BlockCipher)
  {
    forall key: seq<Byte>, v: Block {:trigger BlockEncrypt(aes, key, v)} ::
      |key| == 32 ==> enc(key)(v) == BlockEncrypt(aes, key, v)
  }

  /** The cipher that aesctr256 computes on one block; any value on a key of
      another length. The methods of the context can always be given it. */
  ghost function AesCipher(aes: Intrinsics): (enc: BlockCipher)
    ensures IsAes256(aes, enc)
  {
    key => v => if |key| == 32 then BlockEncrypt(aes, key, v) else v
  }

  /** The n blocks E(Key, V + 1) || ... || E(Key, V + n): V is incremented
      before each encryption. */
  function Outputs(enc: BlockCipher, key: seq<Byte>, v: Block, n: nat): (r: seq<Byte>)
    ensures |r| == 16 * n
  {
    Blocks(Successor, enc(key), Successor(v), n)
  }

  /** Output block k is the encryption of V after k + 1 increments. */
  lemma OutputsBlock(enc: BlockCipher, key: seq<Byte>, v: Block, n: nat, k: nat)
    requires k < n
    ensures Outputs(enc, key, v, n)[16 * k .. 16 * k + 16] == enc(key)(VAfter(v, k + 1))
  {
    BlocksAt(Successor, enc(key), Successor(v), n, k);
    IterateShift(Successor, v, k);
  }

  /** One more increment and encryption appends one more output block. */
  lemma OutputsNext(enc: BlockCipher, key: seq<Byte>, v: Block, n: nat, out: seq<Byte>, x: Block)
    requires out == Outputs(enc, key, v, n) && x == VAfter(v, n + 1)
    ensures Outputs(enc, key, v, n + 1) == out + enc(key)(x)
  {
    BlocksUnfold(Successor, enc(key), Successor(v), n + 1);
    IterateShift(Successor, v, n);
  }

  // ---------------------------------------------------------------------
  // CTR_DRBG_Update (drbg_update, drbg_round)
  // ---------------------------------------------------------------------

  /** Three output blocks under the old key, XORed with the provided data
      when there is any, split into the new Key and the new V. */
  function UpdateAlgorithm(enc: BlockCipher, key: seq<Byte>, v: Block, provided: Option<seq<Byte>>): (r: KeyV)
    requires |key| == 32 && (provided.Some? ==> |provided.value| == 48)
    ensures |r.key| == 32 && |r.v| == 16
  {
    var temp := Outputs(enc, key, v, 3);
    var t := if provided.Some? then Xor(temp, provided.value) else temp;
    KeyV(t[..32], t[32..])
  }

  /** Three output blocks, one after the other. */
  lemma OutputsThree(enc: BlockCipher, key: seq<Byte>, v: Block)
    ensures Outputs(enc, key, v, 3) ==
      enc(key)(VAfter(v, 1)) + enc(key)(VAfter(v, 2)) + enc(key)(VAfter(v, 3))
  {
    var t := Outputs(enc, key, v, 3);
    OutputsBlock(enc, key, v, 3, 0);
    OutputsBlock(enc, key, v, 3, 1);
    OutputsBlock(enc, key, v, 3, 2);
    assert t == t[0..16] + t[16..32] + t[32..48];
  }

  /** Key || V after the update is E(K, V+1) || E(K, V+2) || E(K, V+3), XORed
      with the provided data when there is any. */
  lemma UpdateLayout(enc: BlockCipher, key: seq<Byte>, v: Block, provided: Option<seq<Byte>>)
    requires |key| == 32 && (provided.Some? ==> |provided.value| == 48)
    ensures var r := UpdateAlgorithm(enc, key, v, provided);
      var blocks := enc(key)(VAfter(v, 1)) + enc(key)(VAfter(v, 2)) + enc(key)(VAfter(v, 3));
      r.key + r.v == if provided.Some? then Xor(blocks, provided.value) else blocks
  {
    OutputsThree(enc, key, v);
    var temp := Outputs(enc, key, v, 3);
    TakeDrop(if provided.Some? then Xor(temp, provided.value) else temp, 32);
  }

  /** drbg_round is drbg_update with 48 zero bytes of provided data, as the
      generate function of the standard calls the update with no additional input. */
  lemma RoundIsUpdateWithZeros(enc: BlockCipher, key: seq<Byte>, v: Block)
    requires |key| == 32
    ensures UpdateAlgorithm(enc, key, v, None) == UpdateAlgorithm(enc, key, v, Some(Zeros(48)))
  {
    XorZeros(Outputs(enc, key, v, 3));
  }

  // ---------------------------------------------------------------------
  // Instantiate, reseed, generate (secure_rng_seed, secure_rng_reseed,
  // secure_rng_bytes)
  // ---------------------------------------------------------------------

  /** entropy XOR (personalization padded with zeros) XOR kInitMask. */
  function SeedMaterial(entropy: seq<Byte>, personalization: seq<Byte>): (m: seq<Byte>)
    requires |entropy| == 48 && |personalization| <= 48
    ensures |m| == 48
  {
    Xor(Xor(entropy, Pad(personalization, 48)), InitMask)
  }

  /** secure_rng_seed: a personalization string over 48 bytes is refused and
      nothing changes; otherwise Key and V start at zero, one update with the
      seed material, and the reseed counter restarts at 1. */
  function InstantiateAlgorithm(enc: BlockCipher, s: State, entropy: seq<Byte>, personalization: seq<Byte>): (r: Outcome)
    requires |entropy| == 48
    ensures r.status == Success || r.status == BadMaxlen
    ensures r.status == BadMaxlen <==> |personalization| > 48
    ensures r.status == BadMaxlen ==> r.state == s
    ensures r.status == Success ==> WellFormed(r.state) && r.state.reseedCounter == 1
  {
    if |personalization| > 48 then Outcome(BadMaxlen, s)
    else
      var kv := UpdateAlgorithm(enc, Zeros(32), Zeros(16), Some(SeedMaterial(entropy, personalization)));
      Outcome(Success, State(kv.key, kv.v, 1))
  }

  /** Were kInitMask the first three output blocks under the zero key and zero
      V, the update of secure_rng_seed would cancel it and Key || V would be
      entropy XOR personalization. The hypothesis is on the abstract cipher; the
      code does not establish it. */
  lemma InstantiateMaskCancels(enc: BlockCipher, s: State, entropy: seq<Byte>, personalization: seq<Byte>)
    requires |entropy| == 48 && |personalization| <= 48
    requires InitMask == Outputs(enc, Zeros(32), Zeros(16), 3)
    ensures var r := InstantiateAlgorithm(enc, s, entropy, personalization);
      r.state.key + r.state.v == Xor(entropy, Pad(personalization, 48))
  {
    var m := Xor(entropy, Pad(personalization, 48));
    XorMaskTwice(m, InitMask);
    TakeDrop(Xor(InitMask, SeedMaterial(entropy, personalization)), 32);
  }

  /** secure_rng_reseed: additional data over 48 bytes is refused and nothing
      changes; otherwise one update, from the current Key and V, with entropy
      XOR (additional data padded with zeros), and the counter restarts at 1. */
  function ReseedAlgorithm(enc: BlockCipher, s: State, entropy: seq<Byte>, additional: seq<Byte>): (r: Outcome)
    requires WellFormed(s) && |entropy| == 48
    ensures r.status == Success || r.status == BadMaxlen
    ensures r.status == BadMaxlen <==> |additional| > 48
    ensures r.status == BadMaxlen ==> r.state == s
    ensures r.status == Success ==> WellFormed(r.state) && r.state.reseedCounter == 1
  {
    if |additional| > 48 then Outcome(BadMaxlen, s)
    else
      var kv := UpdateAlgorithm(enc, s.key, s.v, Some(Xor(entropy, Pad(additional, 48))));
      Outcome(Success, State(kv.key, kv.v, 1))
  }

  /** With no additional data the reseed is an update with the entropy alone. */
  lemma ReseedWithoutAdditional(enc: BlockCipher, s: State, entropy: seq<Byte>)
    requires WellFormed(s) && |entropy| == 48
    ensures var r := ReseedAlgorithm(enc, s, entropy, []);
      KeyV(r.state.key, r.state.v) == UpdateAlgorithm(enc, s.key, s.v, Some(entropy))
  {
    XorZeros(entropy);
  }

  /** ceil(xlen / 16): the number of blocks generated for xlen bytes. */
  function BlocksNeeded(xlen: nat): (n: nat)
    ensures xlen <= 16 * n < xlen + 16
  {
    (xlen + 15) / 16
  }

  /** secure_rng_bytes: a request over 65535 bytes, then a counter over 2^48,
      are refused with nothing written and nothing changed; otherwise the
      output is the first xlen bytes of ceil(xlen / 16) output blocks, then an
      update without provided data from the advanced V, and the counter
      gains one. */
  function GenerateAlgorithm(enc: BlockCipher, s: State, xlen: nat): (r: Generated)
    requires WellFormed(s)
    ensures r.status == BadMaxlen <==> xlen > MaxGenerateLength
    ensures r.status == NeedReseed <==> xlen <= MaxGenerateLength && s.reseedCounter > MaxReseedCount
    ensures r.status == Success <==> xlen <= MaxGenerateLength && s.reseedCounter <= MaxReseedCount
    ensures r.status != Success ==> r.state == s && r.output == []
    ensures r.status == Success ==> WellFormed(r.state) && |r.output| == xlen
    ensures r.status == Success ==> r.state.reseedCounter == s.reseedCounter + 1
  {
    if xlen > MaxGenerateLength then Generated(BadMaxlen, s, [])
    else if s.reseedCounter > MaxReseedCount then Generated(NeedReseed, s, [])
    else
      var n := BlocksNeeded(xlen);
      var kv := UpdateAlgorithm(enc, s.key, VAfter(s.v, n), None);
      Generated(Success, State(kv.key, kv.v, s.reseedCounter + 1), Outputs(enc, s.key, s.v, n)[..xlen])
  }

  /** Output bytes 16k .. min(16k + 16, xlen) are the leading bytes of
      E(Key, V + k + 1). */
  lemma GenerateBlock(enc: BlockCipher, s: State, xlen: nat, k: nat)
    requires WellFormed(s) && GenerateAlgorithm(enc, s, xlen).status == Success && 16 * k < xlen
    ensures var out := GenerateAlgorithm(enc, s, xlen).output;
      var e := enc(s.key)(VAfter(s.v, k + 1));
      (16 * k + 16 <= xlen ==> out[16 * k .. 16 * k + 16] == e) &&
      (xlen < 16 * k + 16 ==> out[16 * k ..] == e[..xlen - 16 * k])
  {
    var n := BlocksNeeded(xlen);
    var all := Outputs(enc, s.key, s.v, n);
    OutputsBlock(enc, s.key, s.v, n, k);
    assert all[..xlen][16 * k ..] == all[16 * k .. xlen];
  }

  /** One loop step of drbg_update or secure_rng_bytes: V is incremented once
      more, and its encryption extends the output blocks. */
  lemma OutputsStep(enc: BlockCipher, key: seq<Byte>, v: Block, k: nat, written: seq<Byte>,
                    x: Block, y: Block, block: seq<Byte>)
    requires written == Outputs(enc, key, v, k) && x == VAfter(v, k) && y == Successor(x)
    requires block == enc(key)(y)
    ensures y == VAfter(v, k + 1)
    ensures Outputs(enc, key, v, k + 1) == written + block
  {
    OutputsNext(enc, key, v, k, written, y);
  }

  /** k blocks cover xlen bytes with fewer than 16 to spare exactly when k is ceil(xlen / 16). */
  lemma BlocksNeededOf(xlen: nat, k: nat)
    requires xlen <= 16 * k < xlen + 16
    ensures BlocksNeeded(xlen) == k
  {
  }

  // ---------------------------------------------------------------------
  // The context (struct secure_rng_ctx) and its operations
  // ---------------------------------------------------------------------

  class DrbgContext {
    const Key: array<Byte>
    const V: array<Byte>
    var reseedCounter: nat

    /** The buffer sizes of the struct, and a reseed counter that stays at
        most 2^48 + 1, so that the uint64_t increment never wraps. */
    ghost predicate Valid()
      reads this
    {
      Key.Length == 32 && V.Length == 16 && reseedCounter <= MaxReseedCount + 1
    }

    /** The state as a value. */
    function Current(): State
      reads this, Key, V
    {
      State(Key[..], V[..], reseedCounter)
    }

    /** A context in zero-initialised storage. */
    constructor()
      ensures Valid() && fresh(Key) && fresh(V)
      ensures Current() == State(Zeros(32), Zeros(16), 0)
    {
      Key := new Byte[32](_ => 0);
      V := new Byte[16](_ => 0);
      reseedCounter := 0;
      new;
      assert Key[..] == Zeros(32) && V[..] == Zeros(16);
    }

    /** drbg_increment_v: from the last byte towards the first, 0xff bytes
        become 0x00 until one byte can be incremented. */
    method IncrementV()
      requires Valid()
      modifies V
      ensures V[..] == Successor(old(V[..]))
    {
      ghost var v0: Block := V[..];
      var j := 15;
      while j >= 0
        invariant -1 <= j <= 15
        invariant V[..] == v0[..j + 1] + Zeros(15 - j)
        invariant forall k :: j < k < 16 ==> v0[k] == 0xff
        decreases j
      {
        if V[j] == 0xff {
          V[j] := 0;
          j := j - 1;
        } else {
          V[j] := V[j] + 1;
          SuccessorBytes(v0, j);
          assert V[..] == v0[..j] + [v0[j] + 1] + Zeros(15 - j);
          break;
        }
      }
      if j < 0 {
        SuccessorBytes(v0, -1);
      }
    }

    /** The step shared by the loops of drbg_round, drbg_update and
        secure_rng_bytes: drbg_increment_v, then aesctr256 of one block under
        key (the current Key) into dst at offset off. */
    method NextBlock(aes: Intrinsics, ghost enc: BlockCipher, key: seq<Byte>, dst: array<Byte>, off: nat)
      requires Valid() && IsAes256(aes, enc) && |key| == 32 && off + 16 <= dst.Length && dst != V
      modifies V, dst
      ensures V[..] == Successor(old(V[..]))
      ensures dst[..] == Splice(old(dst[..]), off, enc(key)(V[..]))
    {
      IncrementV();
      var y := V[..];
      Ctr256(aes, dst, off, key, y, 16);
      KeystreamOne(aes, KeySchedule(aes, key), y);
      assert enc(key)(y) == BlockEncrypt(aes, key, y);
    }

    /** The loop shared by drbg_round and drbg_update: three times, increment
        V and encrypt it under the current key into the next 16 bytes of temp. */
    method EncryptThree(aes: Intrinsics, ghost enc: BlockCipher) returns (temp: array<Byte>)
      requires Valid() && IsAes256(aes, enc)
      modifies V
      ensures fresh(temp) && temp.Length == 48
      ensures temp[..] == Outputs(enc, Key[..], old(V[..]), 3)
      ensures V[..] == VAfter(old(V[..]), 3)
    {
      ghost var v0: Block := V[..];
      var key := Key[..];
      temp := new Byte[48];
      for i := 0 to 3
        invariant V[..] == VAfter(v0, i)
        invariant temp[..16 * i] == Outputs(enc, key, v0, i)
      {
        ghost var written := temp[..16 * i];
        ghost var x: Block := V[..];
        ghost var before := temp[..];
        NextBlock(aes, enc, key, temp, 16 * i);
        ghost var y: Block := V[..];
        ghost var b := enc(key)(y);
        SpliceExtends(before, written, 16 * i, b);
        OutputsStep(enc, key, v0, i, written, x, y, b);
      }
    }

    /** drbg_update: the three blocks, XORed with the provided data unless the
        argument is NULL, become the new Key and V. */
    method Update(aes: Intrinsics, ghost enc: BlockCipher, provided: Option<seq<Byte>>)
      requires Valid() && IsAes256(aes, enc) && (provided.Some? ==> |provided.value| == 48)
      modifies Key, V
      ensures KeyV(Key[..], V[..]) == UpdateAlgorithm(enc, old(Key[..]), old(V[..]), provided)
    {
      var temp := EncryptThree(aes, enc);
      if provided.Some? {
        ghost var t0 := temp[..];
        XorInto(temp, provided.value, 48);
        XorPrefixPad(t0, provided.value);
        assert Pad(provided.value, 48) == provided.value;
      }
      Commit(temp);
    }

    /** drbg_round: drbg_update without provided data. */
    method Round(aes: Intrinsics, ghost enc: BlockCipher)
      requires Valid() && IsAes256(aes, enc)
      modifies Key, V
      ensures KeyV(Key[..], V[..]) == UpdateAlgorithm(enc, old(Key[..]), old(V[..]), None)
    {
      var temp := EncryptThree(aes, enc);
      Commit(temp);
    }

    /** memcpy(ctx->Key, temp, 32) and memcpy(ctx->V, temp + 32, 16). */
    method Commit(temp: array<Byte>)
      requires Valid() && temp.Length == 48 && temp != Key && temp != V
      modifies Key, V
      ensures Key[..] == temp[..32] && V[..] == temp[32..]
    {
      CopyInto(Key, 0, temp[..32]);
      SpliceWhole(old(Key[..]), temp[..32]);
      CopyInto(V, 0, temp[32..]);
      SpliceWhole(old(V[..]), temp[32..]);
    }

    /** secure_rng_seed. */
    method Seed(aes: Intrinsics, ghost enc: BlockCipher, entropy: seq<Byte>, personalization: seq<Byte>) returns (status: int)
      requires Valid() && IsAes256(aes, enc) && |entropy| == 48
      modifies this, Key, V
      ensures Valid()
      ensures Outcome(status, Current()) == InstantiateAlgorithm(enc, old(Current()), entropy, personalization)
    {
      if |personalization| > 48 {
        return BadMaxlen;
      }
      var seedMaterial := new Byte[48];
      ghost var before := seedMaterial[..];
      CopyInto(seedMaterial, 0, entropy);
      SpliceWhole(before, entropy);
      XorInto(seedMaterial, personalization, |personalization|);
      XorPrefixPad(entropy, personalization);
      ghost var m := seedMaterial[..];
      XorInto(seedMaterial, InitMask, 48);
      XorPrefixPad(m, InitMask);
      assert Pad(InitMask, 48) == InitMask;
      ghost var material := SeedMaterial(entropy, personalization);
      assert seedMaterial[..] == material;
      ghost var key0 := Key[..];
      ghost var v0 := V[..];
      CopyInto(Key, 0, Zeros(32));
      SpliceWhole(key0, Zeros(32));
      CopyInto(V, 0, Zeros(16));
      SpliceWhole(v0, Zeros(16));
      Update(aes, enc, Some(seedMaterial[..]));
      reseedCounter := 1;
      status := Success;
      ghost var kv := UpdateAlgorithm(enc, Zeros(32), Zeros(16), Some(material));
      assert Key[..] == kv.key && V[..] == kv.v;
    }

    /** secure_rng_reseed. */
    method Reseed(aes: Intrinsics, ghost enc: BlockCipher, entropy: seq<Byte>, additional: seq<Byte>) returns (status: int)
      requires Valid() && IsAes256(aes, enc) && |entropy| == 48
      modifies this, Key, V
      ensures Valid()
      ensures Outcome(status, Current()) == ReseedAlgorithm(enc, old(Current()), entropy, additional)
    {
      ghost var s0 := Current();
      var entropyCopy := new Byte[48];
      ghost var before := entropyCopy[..];
      CopyInto(entropyCopy, 0, entropy);
      SpliceWhole(before, entropy);
      if |additional| > 0 {
        if |additional| > 48 {
          return BadMaxlen;
        }
        XorInto(entropyCopy, additional, |additional|);
      }
      XorPrefixPad(entropy, additional);
      ghost var material := Xor(entropy, Pad(additional, 48));
      assert entropyCopy[..] == material;
      assert Current() == s0;
      ghost var kv := UpdateAlgorithm(enc, s0.key, s0.v, Some(material));
      assert ReseedAlgorithm(enc, s0, entropy, additional) == Outcome(Success, State(kv.key, kv.v, 1));
      Update(aes, enc, Some(entropyCopy[..]));
      assert KeyV(Key[..], V[..]) == kv;
      reseedCounter := 1;
      status := Success;
    }

    /** The body of the loop of secure_rng_bytes: the step shared with
        drbg_update into block, then either a whole block is copied to
        x + i and i and xlen move on by 16, or the last xlen bytes are copied
        and xlen drops to 0. m is the number of bytes copied. */
    method EmitBlock(aes: Intrinsics, ghost enc: BlockCipher, key: seq<Byte>, block: array<Byte>, out: array<Byte>,
                     i: nat, len: nat) returns (i': nat, len': nat, ghost m: nat)
      requires Valid() && IsAes256(aes, enc) && |key| == 32 && block.Length == 16
      requires 0 < len && i + (if len > 15 then 16 else len) <= out.Length
      requires block != V && out != V && out != block
      modifies V, block, out
      ensures V[..] == Successor(old(V[..]))
      ensures m == (if len > 15 then 16 else len) && len' == len - m && (len' > 0 ==> i' == i + 16)
      ensures forall j :: 0 <= j < m ==> out[i + j] == enc(key)(V[..])[j]
      ensures forall j :: 0 <= j < out.Length && !(i <= j < i + m) ==> out[j] == old(out[j])
    {
      ghost var before := block[..];
      NextBlock(aes, enc, key, block, 0);
      SpliceWhole(before, enc(key)(V[..]));
      if len > 15 {
        CopyInto(out, i, block[..16]);
        m := 16;
        i' := i + 16;
        len' := len - 16;
      } else {
        CopyInto(out, i, block[..len]);
        m := len;
        i' := i;
        len' := 0;
      }
    }

    /** The loop of secure_rng_bytes: until xlen bytes are written, increment
        V, encrypt it, and copy the block, or its first xlen bytes, to out. */
    method FillOutput(aes: Intrinsics, ghost enc: BlockCipher, key: seq<Byte>, out: array<Byte>, xlen: nat)
      requires Valid() && IsAes256(aes, enc) && |key| == 32 && xlen <= out.Length && out != V
      modifies V, out
      ensures out[..] == Splice(old(out[..]), 0, Outputs(enc, key, old(V[..]), BlocksNeeded(xlen))[..xlen])
      ensures V[..] == VAfter(old(V[..]), BlocksNeeded(xlen))
    {
      ghost var v0: Block := V[..];
      ghost var out0 := out[..];
      ghost var k: nat := 0;
      ghost var written: seq<Byte> := [];
      var i: nat := 0;
      var len: nat := xlen;
      var block := new Byte[16];
      while len > 0
        invariant len <= xlen && |written| == 16 * k && xlen - len <= 16 * k < xlen - len + 16
        invariant len > 0 ==> i == 16 * k == xlen - len
        invariant V[..] == VAfter(v0, k) && written == Outputs(enc, key, v0, k)
        invariant forall j :: 0 <= j < xlen - len ==> out[j] == written[j]
        invariant forall j :: xlen - len <= j < out.Length ==> out[j] == out0[j]
        decreases len
      {
        ghost var x: Block := V[..];
        ghost var m: nat;
        i, len, m := EmitBlock(aes, enc, key, block, out, i, len);
        ghost var y: Block := V[..];
        OutputsStep(enc, key, v0, k, written, x, y, enc(key)(y));
        written := written + enc(key)(y);
        k := k + 1;
      }
      BlocksNeededOf(xlen, k);
      SpliceBytewise(out[..], out0, 0, written[..xlen]);
    }

    /** secure_rng_bytes: x is out[0 .. xlen]. */
    method Bytes(aes: Intrinsics, ghost enc: BlockCipher, out: array<Byte>, xlen: nat) returns (status: int)
      requires Valid() && IsAes256(aes, enc)
      requires xlen <= MaxGenerateLength ==> xlen <= out.Length
      requires out != Key && out != V
      modifies this, Key, V, out
      ensures Valid()
      ensures var r := GenerateAlgorithm(enc, old(Current()), xlen);
        status == r.status && Current() == r.state && out[..] == Splice(old(out[..]), 0, r.output)
    {
      if xlen > MaxGenerateLength {
        return BadMaxlen;
      }
      if reseedCounter > MaxReseedCount {
        return NeedReseed;
      }
      FillOutput(aes, enc, Key[..], out, xlen);
      Round(aes, enc);
      reseedCounter := reseedCounter + 1;
      status := Success;
    }
  }
}
