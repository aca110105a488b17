/** The AES-256 engine of src/aarch64/aes.c: the key schedule built from the
    ARMv8 AESE instruction (FIPS 197, section 5.2) and the counter-mode
    keystream (NIST SP 800-38A, section 6.5) with its 4-way interleaved path.

    The two round instructions are not defined by the code (they are
    hardware): vaeseq_u8 (AddRoundKey, ShiftRows, SubBytes) and vaesmcq_u8
    (MixColumns) are carried as the two uninterpreted functions of an
    `Intrinsics` value that every operation takes as a parameter. */
module Aes256 {
  import opened ByteSeq

  /** A 128-bit NEON register, as its 16 bytes in memory order. */
  type Block = b: seq<Byte> | |b| == 16 witness Zeros(16)

  /** The AES round instructions: aese(data, key) and aesmc(data). */
  datatype Intrinsics = Intrinsics(aese: (Block, Block) -> Block, aesmc: Block -> Block)

  const ZeroBlock: Block := Zeros(16)

  const TwoTo32: nat := 0x1_0000_0000

  /** 32-bit lane j of a register (bytes 4j .. 4j+3). */
  function Word(b: Block, j: nat): (w: seq<Byte>)
    requires j < 4
    ensures |w| == 4
  {
    b[4 * j .. 4 * j + 4]
  }

  /** FIPS 197 RotWord: a cyclic shift of a 4-byte word by one byte. */
  function RotWord(w: seq<Byte>): (r: seq<Byte>)
    requires |w| == 4
    ensures |r| == 4
  {
    w[1..] + w[..1]
  }

  /** vdupq_laneq_s32(x, j): the word w copied into all four lanes. */
  function Splat(w: seq<Byte>): (r: Block)
    requires |w| == 4
    ensures forall j :: 0 <= j < 4 ==> Word(r, j) == w
  {
    w + w + w + w
  }

  /** vextq_u8(vdupq_n_u8(0), a, 12): every lane moved up by one, lane 0 zero. */
  function ShiftLanes(a: Block): (r: Block)
    ensures forall i :: 0 <= i < 4 ==> r[i] == 0
    ensures forall i :: 4 <= i < 16 ==> r[i] == a[i - 4]
  {
    Zeros(4) + a[..12]
  }

  /** The XOR of two registers, lane by lane. */
  lemma XorWords(a: Block, b: Block)
    ensures forall j :: 0 <= j < 4 ==> Word(Xor(a, b), j) == Xor(Word(a, j), Word(b, j))
  {
  }

  // ---------------------------------------------------------------------
  // Key-schedule helpers (assist256_1, assist256_2, aeskeygenassist)
  // ---------------------------------------------------------------------

  /** The XOR of lanes 0 .. j of a: the reference definition of the
      shift-and-XOR sequence shared by both key-schedule helpers. */
  function PrefixXor(a: Block, j: nat): (w: seq<Byte>)
    requires j < 4
    ensures |w| == 4
  {
    if j == 0 then Word(a, 0) else Xor(PrefixXor(a, j - 1), Word(a, j))
  }

  /** The three shift-and-XOR steps that open assist256_1 and close assist256_2. */
  function PrefixXorLanes(a: Block): Block
  {
    var c1 := ShiftLanes(a);
    var a1: Block := Xor(a, c1);
    var c2 := ShiftLanes(c1);
    var a2: Block := Xor(a1, c2);
    var c3 := ShiftLanes(c2);
    Xor(a2, c3)
  }

  /** XOR of four bytes does not depend on the order of the operands. */
  lemma XorReorder(w: Byte, x: Byte, y: Byte, z: Byte)
    ensures ((w ^ x) ^ y) ^ z == z ^ y ^ x ^ w
    ensures (w ^ x) ^ y == y ^ x ^ w
    ensures w ^ x == x ^ w
  {
  }

  /** Byte i of the shift-and-XOR result is byte i of a XOR byte i of the
      three shifted copies. */
  lemma PrefixXorLanesAt(a: Block, i: nat)
    requires i < 16
    ensures PrefixXorLanes(a)[i] ==
      ((a[i] ^ ShiftLanes(a)[i]) ^ ShiftLanes(ShiftLanes(a))[i]) ^ ShiftLanes(ShiftLanes(ShiftLanes(a)))[i]
  {
    var c1 := ShiftLanes(a);
    var c2 := ShiftLanes(c1);
    var c3 := ShiftLanes(c2);
    var a1: Block := Xor(a, c1);
    var a2: Block := Xor(a1, c2);
    assert PrefixXorLanes(a) == Xor(a2, c3);
  }

  /** Lane 0 of the shift-and-XOR result is lane 0 of a. */
  lemma PrefixXorLane0(a: Block, i: nat)
    requires i < 4
    ensures PrefixXorLanes(a)[i] == a[i]
  {
    PrefixXorLanesAt(a, i);
    var c1 := ShiftLanes(a);
    var c2 := ShiftLanes(c1);
    assert c1[i] == 0 && c2[i] == 0 && ShiftLanes(c2)[i] == 0;
  }

  /** Lane 1 of the shift-and-XOR result is lane 0 XOR lane 1 of a. */
  lemma PrefixXorLane1(a: Block, i: nat)
    requires 4 <= i < 8
    ensures PrefixXorLanes(a)[i] == a[i - 4] ^ a[i]
  {
    PrefixXorLanesAt(a, i);
    var c1 := ShiftLanes(a);
    var c2 := ShiftLanes(c1);
    assert c1[i] == a[i - 4] && c2[i] == 0 && ShiftLanes(c2)[i] == 0;
    XorReorder(a[i], a[i - 4], 0, 0);
  }

  /** Lane 2 of the shift-and-XOR result is the XOR of lanes 0 .. 2 of a. */
  lemma PrefixXorLane2(a: Block, i: nat)
    requires 8 <= i < 12
    ensures PrefixXorLanes(a)[i] == a[i - 8] ^ a[i - 4] ^ a[i]
  {
    PrefixXorLanesAt(a, i);
    var c1 := ShiftLanes(a);
    var c2 := ShiftLanes(c1);
    assert c1[i] == a[i - 4] && c2[i] == c1[i - 4] == a[i - 4 - 4] == a[i - 8] && ShiftLanes(c2)[i] == 0;
    XorReorder(a[i], a[i - 4], a[i - 8], 0);
  }

  /** Lane 3 of the shift-and-XOR result is the XOR of lanes 0 .. 3 of a. */
  lemma PrefixXorLane3(a: Block, i: nat)
    requires 12 <= i < 16
    ensures PrefixXorLanes(a)[i] == a[i - 12] ^ a[i - 8] ^ a[i - 4] ^ a[i]
  {
    PrefixXorLanesAt(a, i);
    var c1 := ShiftLanes(a);
    var c2 := ShiftLanes(c1);
    var c3 := ShiftLanes(c2);
    assert c1[i] == a[i - 4] && c2[i] == c1[i - 4] == a[i - 4 - 4] == a[i - 8];
    assert c3[i] == c2[i - 4] == c1[i - 4 - 4] == a[i - 4 - 4 - 4] == a[i - 12];
    XorReorder(a[i], a[i - 4], a[i - 8], a[i - 12]);
  }

  /** Byte i of the shift-and-XOR result is the XOR of bytes i, i - 4, ... of a. */
  lemma PrefixXorLanesBytes(a: Block)
    ensures forall i {:trigger PrefixXorLanes(a)[i]} :: 0 <= i < 4 ==>
      PrefixXorLanes(a)[i] == a[i]
    ensures forall i {:trigger PrefixXorLanes(a)[i]} :: 4 <= i < 8 ==>
      PrefixXorLanes(a)[i] == a[i - 4] ^ a[i]
    ensures forall i {:trigger PrefixXorLanes(a)[i]} :: 8 <= i < 12 ==>
      PrefixXorLanes(a)[i] == a[i - 8] ^ a[i - 4] ^ a[i]
    ensures forall i {:trigger PrefixXorLanes(a)[i]} :: 12 <= i < 16 ==>
      PrefixXorLanes(a)[i] == a[i - 12] ^ a[i - 8] ^ a[i - 4] ^ a[i]
  {
    forall i | 0 <= i < 4
      ensures PrefixXorLanes(a)[i] == a[i]
    {
      PrefixXorLane0(a, i);
    }
    forall i | 4 <= i < 8
      ensures PrefixXorLanes(a)[i] == a[i - 4] ^ a[i]
    {
      PrefixXorLane1(a, i);
    }
    forall i | 8 <= i < 12
      ensures PrefixXorLanes(a)[i] == a[i - 8] ^ a[i - 4] ^ a[i]
    {
      PrefixXorLane2(a, i);
    }
    forall i | 12 <= i < 16
      ensures PrefixXorLanes(a)[i] == a[i - 12] ^ a[i - 8] ^ a[i - 4] ^ a[i]
    {
      PrefixXorLane3(a, i);
    }
  }

  /** Byte k of PrefixXor(a, j) is the XOR of byte k of lanes 0 .. j. */
  lemma PrefixXorBytes(a: Block, j: nat, k: nat)
    requires j < 4 && k < 4
    ensures PrefixXor(a, j)[k] ==
      if j == 0 then a[k]
      else if j == 1 then a[k] ^ a[4 + k]
      else if j == 2 then a[k] ^ a[4 + k] ^ a[8 + k]
      else a[k] ^ a[4 + k] ^ a[8 + k] ^ a[12 + k]
  {
    var w0 := Word(a, 0);
    var w1 := Xor(w0, Word(a, 1));
    var w2 := Xor(w1, Word(a, 2));
    assert PrefixXor(a, 1) == w1 && PrefixXor(a, 2) == w2;
    if j == 3 {
      assert PrefixXor(a, 3) == Xor(w2, Word(a, 3));
    }
  }

  /** Lane j of the shift-and-XOR result is the XOR of lanes 0 .. j. */
  lemma PrefixXorLanesSpec(a: Block)
    ensures forall j :: 0 <= j < 4 ==> Word(PrefixXorLanes(a), j) == PrefixXor(a, j)
  {
    PrefixXorLanesBytes(a);
    LanesOfPrefixBytes(a, PrefixXorLanes(a));
  }

  /** A register whose byte i is the XOR of bytes i, i - 4, ... of a holds
      the prefix XORs of the lanes of a. */
  lemma LanesOfPrefixBytes(a: Block, r: Block)
    requires forall i {:trigger r[i]} :: 0 <= i < 4 ==> r[i] == a[i]
    requires forall i {:trigger r[i]} :: 4 <= i < 8 ==> r[i] == a[i - 4] ^ a[i]
    requires forall i {:trigger r[i]} :: 8 <= i < 12 ==> r[i] == a[i - 8] ^ a[i - 4] ^ a[i]
    requires forall i {:trigger r[i]} :: 12 <= i < 16 ==> r[i] == a[i - 12] ^ a[i - 8] ^ a[i - 4] ^ a[i]
    ensures forall j :: 0 <= j < 4 ==> Word(r, j) == PrefixXor(a, j)
  {
    forall j | 0 <= j < 4
      ensures Word(r, j) == PrefixXor(a, j)
    {
      forall k | 0 <= k < 4
        ensures Word(r, j)[k] == PrefixXor(a, j)[k]
      {
        PrefixXorBytes(a, j, k);
      }
    }
  }

  /** assist256_1: the even-numbered round keys. Lane j of assist256_1(a, b)
      is the XOR of lanes 0 .. j of the key two steps back, XOR lane 3 of the
      keygen result b. */
  function AssistEven(a: Block, b: Block): (r: Block)
    ensures forall j :: 0 <= j < 4 ==> Word(r, j) == Xor(PrefixXor(a, j), Word(b, 3))
  {
    PrefixXorLanesSpec(a);
    XorWords(PrefixXorLanes(a), Splat(Word(b, 3)));
    Xor(PrefixXorLanes(a), Splat(Word(b, 3)))
  }

  /** aeskeygenassist without the round constant: AESE with an all-zero key
      (so ShiftRows then SubBytes) and the byte selection of the `dest`
      initialiser. With AESE read as ShiftRows-then-SubBytes, lane 0 is
      SubWord of lane 1 of a and lane 2 is SubWord of lane 3 of a; lanes 1
      and 3 are their FIPS 197 RotWord. */
  function KeygenShuffle(aes: Intrinsics, a: Block): (r: Block)
    ensures Word(r, 1) == RotWord(Word(r, 0)) && Word(r, 3) == RotWord(Word(r, 2))
  {
    var d := aes.aese(a, ZeroBlock);
    var r: Block :=
      [d[0x4], d[0x1], d[0xE], d[0xB],
       d[0x1], d[0xE], d[0xB], d[0x4],
       d[0xC], d[0x9], d[0x6], d[0x3],
       d[0x9], d[0x6], d[0x3], d[0xC]];
    assert Word(r, 0) == [r[0], r[1], r[2], r[3]] && Word(r, 1) == [r[4], r[5], r[6], r[7]];
    assert Word(r, 2) == [r[8], r[9], r[10], r[11]] && Word(r, 3) == [r[12], r[13], r[14], r[15]];
    r
  }

  /** The little-endian bytes of a 32-bit lane value. */
  function LeBytes32(x: bv32): (w: seq<Byte>)
    ensures |w| == 4
  {
    [(x & 0xff) as Byte, ((x >> 8) & 0xff) as Byte, ((x >> 16) & 0xff) as Byte, (x >> 24) as Byte]
  }

  /** aeskeygenassist(a, rcon): the shuffle XOR the lane vector {0, rcon, 0, rcon}.
      Lane 3 is RotWord of lane 2 XOR the round constant, the FIPS 197
      `SubWord(RotWord(w)) xor Rcon`; lanes 0 and 2 carry no constant. */
  function KeygenAssist(aes: Intrinsics, a: Block, rcon: bv32): (r: Block)
    ensures Word(r, 0) == Word(KeygenShuffle(aes, a), 0)
    ensures Word(r, 2) == Word(KeygenShuffle(aes, a), 2)
    ensures Word(r, 1) == Xor(RotWord(Word(KeygenShuffle(aes, a), 0)), LeBytes32(rcon))
    ensures Word(r, 3) == Xor(RotWord(Word(KeygenShuffle(aes, a), 2)), LeBytes32(rcon))
  {
    var d := KeygenShuffle(aes, a);
    XorWords(d, RconLanes(rcon));
    XorZeros(Word(d, 0));
    XorZeros(Word(d, 2));
    Xor(d, RconLanes(rcon))
  }

  /** The lane vector {0, rcon, 0, rcon}. */
  function RconLanes(rcon: bv32): (k: Block)
    ensures Word(k, 0) == Zeros(4) && Word(k, 2) == Zeros(4)
    ensures Word(k, 1) == LeBytes32(rcon) && Word(k, 3) == LeBytes32(rcon)
  {
    Zeros(4) + LeBytes32(rcon) + Zeros(4) + LeBytes32(rcon)
  }

  /** assist256_2: the odd-numbered round keys. Lane j is the XOR of lanes
      0 .. j of the key two steps back, XOR lane 2 of the shuffle of the
      previous key: SubWord without RotWord and without a round constant. */
  function AssistOdd(aes: Intrinsics, a: Block, c: Block): (r: Block)
    ensures forall j :: 0 <= j < 4 ==> Word(r, j) == Xor(PrefixXor(c, j), Word(KeygenShuffle(aes, a), 2))
  {
    PrefixXorLanesSpec(c);
    XorWords(PrefixXorLanes(c), Splat(Word(KeygenShuffle(aes, a), 2)));
    Xor(PrefixXorLanes(c), Splat(Word(KeygenShuffle(aes, a), 2)))
  }

  /** XOR on 4-byte words is associative and commutative enough to move a term. */
  lemma XorRotate(x: seq<Byte>, y: seq<Byte>, t: seq<Byte>)
    requires |x| == |y| == |t|
    ensures Xor(Xor(x, y), t) == Xor(y, Xor(x, t))
  {
    assert forall i :: 0 <= i < |x| ==> Xor(Xor(x, y), t)[i] == Xor(y, Xor(x, t))[i];
  }

  /** The prefix-XOR lanes of assist256_1 are the FIPS 197 word recurrence
      w[i] = w[i - 8] xor temp, with temp the keygen word for the first
      lane of a round key and the previous word for the other three. */
  lemma {:induction false} AssistEvenRecurrence(a: Block, b: Block)
    ensures Word(AssistEven(a, b), 0) == Xor(Word(a, 0), Word(b, 3))
    ensures forall j :: 1 <= j < 4 ==>
      Word(AssistEven(a, b), j) == Xor(Word(a, j), Word(AssistEven(a, b), j - 1))
  {
    var r := AssistEven(a, b);
    forall j | 1 <= j < 4
      ensures Word(r, j) == Xor(Word(a, j), Word(r, j - 1))
    {
      XorRotate(PrefixXor(a, j - 1), Word(a, j), Word(b, 3));
    }
  }

  /** The same recurrence for assist256_2, whose temp for the first lane is
      the substituted word without rotation or round constant. */
  lemma {:induction false} AssistOddRecurrence(aes: Intrinsics, a: Block, c: Block)
    ensures Word(AssistOdd(aes, a, c), 0) == Xor(Word(c, 0), Word(KeygenShuffle(aes, a), 2))
    ensures forall j :: 1 <= j < 4 ==>
      Word(AssistOdd(aes, a, c), j) == Xor(Word(c, j), Word(AssistOdd(aes, a, c), j - 1))
  {
    var r := AssistOdd(aes, a, c);
    forall j | 1 <= j < 4
      ensures Word(r, j) == Xor(Word(c, j), Word(r, j - 1))
    {
      XorRotate(PrefixXor(c, j - 1), Word(c, j), Word(KeygenShuffle(aes, a), 2));
    }
  }

  // ---------------------------------------------------------------------
  // Key schedule (expand256)
  // ---------------------------------------------------------------------

  /** The round constants expand256 passes to aeskeygenassist, in order. */
  const RconTable: seq<bv32> := [0x01, 0x02, 0x04, 0x08, 0x10, 0x20, 0x40]

  /** The round constant of the r-th even round key. */
  function Rcon(r: nat): bv32
    requires 1 <= r <= 7
  {
    RconTable[r - 1]
  }

  /** They are the FIPS 197 round constants x^(r - 1) in GF(2^8): one, then
      doubled each time (no reduction is needed below x^8). */
  lemma RconDoubles()
    ensures Rcon(1) == 1
    ensures forall r :: 2 <= r <= 7 ==> Rcon(r) == Rcon(r - 1) << 1 && Rcon(r) < 0x80
  {
  }

  /** The first h pairs of round keys of a 32-byte key: pair 1 is the two
      halves of the key, and pair h adds an even key through assist256_1 with
      round constant Rcon(h - 1) and an odd key through assist256_2. */
  function SchedulePairs(aes: Intrinsics, key: seq<Byte>, h: nat): (ks: seq<Block>)
    requires |key| == 32 && 1 <= h <= 7
    ensures |ks| == 2 * h
    ensures ks[0] == key[..16] && ks[1] == key[16..]
  {
    if h == 1 then [key[..16], key[16..]]
    else
      var p := SchedulePairs(aes, key, h - 1);
      var even := AssistEven(p[2 * h - 4], KeygenAssist(aes, p[2 * h - 3], Rcon(h - 1)));
      p + [even, AssistOdd(aes, even, p[2 * h - 3])]
  }

  /** The 15 round keys of AES-256: seven pairs and a last even key. */
  function KeySchedule(aes: Intrinsics, key: seq<Byte>): (ks: seq<Block>)
    requires |key| == 32
    ensures |ks| == 15
    ensures ks[0] == key[..16] && ks[1] == key[16..]
  {
    var p := SchedulePairs(aes, key, 7);
    p + [AssistEven(p[12], KeygenAssist(aes, p[13], Rcon(7)))]
  }

  /** One pair of steps of expand256 extends the schedule by one pair. */
  lemma SchedulePairsStep(aes: Intrinsics, key: seq<Byte>, h: nat, ks: seq<Block>,
                          a: Block, b: Block, g: Block, even: Block, odd: Block)
    requires |key| == 32 && 1 <= h < 7 && ks == SchedulePairs(aes, key, h)
    requires ks[2 * h - 2] == a && ks[2 * h - 1] == b
    requires g == KeygenAssist(aes, b, Rcon(h)) && even == AssistEven(a, g) && odd == AssistOdd(aes, even, b)
    ensures ks + [even, odd] == SchedulePairs(aes, key, h + 1)
  {
  }

  /** The last even step of expand256 completes the schedule. */
  lemma KeyScheduleLast(aes: Intrinsics, key: seq<Byte>, ks: seq<Block>, a: Block, b: Block, g: Block, last: Block)
    requires |key| == 32 && ks == SchedulePairs(aes, key, 7)
    requires ks[12] == a && ks[13] == b
    requires g == KeygenAssist(aes, b, Rcon(7)) && last == AssistEven(a, g)
    ensures ks + [last] == KeySchedule(aes, key)
  {
  }

  /** Keys 2h and 2h + 1 of ks follow from the two keys before them as
      expand256 computes them: assist256_1 with Rcon(h), then assist256_2. */
  ghost predicate PairStep(aes: Intrinsics, ks: seq<Block>, h: nat)
    requires 1 <= h <= 7 && 2 * h + 1 < |ks|
  {
    ks[2 * h] == AssistEven(ks[2 * h - 2], KeygenAssist(aes, ks[2 * h - 1], Rcon(h))) &&
    ks[2 * h + 1] == AssistOdd(aes, ks[2 * h], ks[2 * h - 1])
  }

  /** A pair step holds in any sequence that starts with one where it holds. */
  lemma PairStepPrefix(aes: Intrinsics, ks: seq<Block>, p: seq<Block>, h: nat)
    requires 1 <= h <= 7 && 2 * h + 1 < |p| <= |ks| && ks[..|p|] == p
    requires PairStep(aes, p, h)
    ensures PairStep(aes, ks, h)
  {
    assert ks[2 * h - 2] == p[2 * h - 2] && ks[2 * h - 1] == p[2 * h - 1];
    assert ks[2 * h] == p[2 * h] && ks[2 * h + 1] == p[2 * h + 1];
  }

  /** The first n - 1 pairs are a prefix of the first n. */
  lemma SchedulePairsPrefix(aes: Intrinsics, key: seq<Byte>, n: nat)
    requires |key| == 32 && 2 <= n <= 7
    ensures SchedulePairs(aes, key, n)[..2 * n - 2] == SchedulePairs(aes, key, n - 1)
  {
  }

  /** The pair that the first n pairs add last is a pair step. */
  lemma PairsLast(aes: Intrinsics, key: seq<Byte>, n: nat, h: nat)
    requires |key| == 32 && 2 <= n <= 7 && h == n - 1
    ensures PairStep(aes, SchedulePairs(aes, key, n), h)
  {
    var p := SchedulePairs(aes, key, n - 1);
    var even := AssistEven(p[2 * n - 4], KeygenAssist(aes, p[2 * n - 3], Rcon(n - 1)));
    var ks := p + [even, AssistOdd(aes, even, p[2 * n - 3])];
    assert SchedulePairs(aes, key, n) == ks;
    assert 2 * h == |p| && 2 * h - 2 == 2 * n - 4 && 2 * h - 1 == 2 * n - 3;
    assert ks[2 * h] == even && ks[2 * h + 1] == AssistOdd(aes, even, p[2 * n - 3]);
    assert ks[2 * h - 2] == p[2 * n - 4] && ks[2 * h - 1] == p[2 * n - 3];
  }

  /** A pair step of the first n - 1 pairs is one of the first n. */
  lemma PairsGrow(aes: Intrinsics, key: seq<Byte>, n: nat, h: nat)
    requires |key| == 32 && 1 <= h < n - 1 && n <= 7
    requires PairStep(aes, SchedulePairs(aes, key, n - 1), h)
    ensures PairStep(aes, SchedulePairs(aes, key, n), h)
  {
    SchedulePairsPrefix(aes, key, n);
    PairStepPrefix(aes, SchedulePairs(aes, key, n), SchedulePairs(aes, key, n - 1), h);
  }

  /** Pair h of the seven pairs is a pair step: it is the last pair of the
      first h + 1, and each later pair keeps it. */
  lemma PairsKey(aes: Intrinsics, key: seq<Byte>, h: nat)
    requires |key| == 32 && 1 <= h <= 6
    ensures PairStep(aes, SchedulePairs(aes, key, 7), h)
  {
    var m := h + 1;
    PairsLast(aes, key, m, h);
    while m < 7
      invariant h < m <= 7 && PairStep(aes, SchedulePairs(aes, key, m), h)
    {
      PairsGrow(aes, key, m + 1, h);
      m := m + 1;
    }
  }

  /** Pair h of the 15 round keys is a pair step. */
  lemma SchedulePairStep(aes: Intrinsics, key: seq<Byte>, h: nat)
    requires |key| == 32 && 1 <= h <= 6
    ensures PairStep(aes, KeySchedule(aes, key), h)
  {
    PairsKey(aes, key, h);
    PairStepPrefix(aes, KeySchedule(aes, key), SchedulePairs(aes, key, 7), h);
  }

  /** The last round key comes from assist256_1 with Rcon(7). */
  lemma ScheduleLastKey(aes: Intrinsics, key: seq<Byte>)
    requires |key| == 32
    ensures var ks := KeySchedule(aes, key);
      ks[14] == AssistEven(ks[12], KeygenAssist(aes, ks[13], Rcon(7)))
  {
    var p := SchedulePairs(aes, key, 7);
    assert KeySchedule(aes, key)[12] == p[12] && KeySchedule(aes, key)[13] == p[13];
  }

  /** ks is a key schedule as expand256 builds one: 15 keys, each pair
      after the first a pair step, and the last key from assist256_1 with
      Rcon(7). */
  ghost predicate Scheduled(aes: Intrinsics, ks: seq<Block>)
  {
    |ks| == 15 &&
    (forall h :: 1 <= h <= 6 ==> PairStep(aes, ks, h)) &&
    ks[14] == AssistEven(ks[12], KeygenAssist(aes, ks[13], Rcon(7)))
  }

  /** The key schedule of any 32-byte key is one. */
  lemma KeyScheduleScheduled(aes: Intrinsics, key: seq<Byte>)
    requires |key| == 32
    ensures Scheduled(aes, KeySchedule(aes, key))
  {
    forall h | 1 <= h <= 6
      ensures PairStep(aes, KeySchedule(aes, key), h)
    {
      SchedulePairStep(aes, key, h);
    }
    ScheduleLastKey(aes, key);
  }

  /** In a key schedule, even key 2h is assist256_1 of the two before it
      with Rcon(h). */
  lemma ScheduledEven(aes: Intrinsics, ks: seq<Block>, h: nat)
    requires Scheduled(aes, ks) && 1 <= h <= 7
    ensures ks[2 * h] == AssistEven(ks[2 * h - 2], KeygenAssist(aes, ks[2 * h - 1], Rcon(h)))
  {
    if h < 7 {
      assert PairStep(aes, ks, h);
    }
  }

  /** In a key schedule, odd key 2h + 1 is assist256_2 of the two before it. */
  lemma ScheduledOdd(aes: Intrinsics, ks: seq<Block>, h: nat)
    requires Scheduled(aes, ks) && 1 <= h <= 6
    ensures ks[2 * h + 1] == AssistOdd(aes, ks[2 * h], ks[2 * h - 1])
  {
    assert PairStep(aes, ks, h);
  }

  /** Round key 2h (h = 1 .. 7) of a 32-byte key: assist256_1 of the two
      keys before it with Rcon(h). */
  lemma ScheduleEvenKey(aes: Intrinsics, key: seq<Byte>, h: nat)
    requires |key| == 32 && 1 <= h <= 7
    ensures var ks := KeySchedule(aes, key);
      ks[2 * h] == AssistEven(ks[2 * h - 2], KeygenAssist(aes, ks[2 * h - 1], Rcon(h)))
  {
    KeyScheduleScheduled(aes, key);
    ScheduledEven(aes, KeySchedule(aes, key), h);
  }

  /** Round key 2h + 1 (h = 1 .. 6) of a 32-byte key: assist256_2 of the two
      keys before it. */
  lemma ScheduleOddKey(aes: Intrinsics, key: seq<Byte>, h: nat)
    requires |key| == 32 && 1 <= h <= 6
    ensures var ks := KeySchedule(aes, key);
      ks[2 * h + 1] == AssistOdd(aes, ks[2 * h], ks[2 * h - 1])
  {
    KeyScheduleScheduled(aes, key);
    ScheduledOdd(aes, KeySchedule(aes, key), h);
  }

  /** Word i of the AES-256 key schedule w[0 .. 59] of FIPS 197: lane i % 4
      of round key i / 4. */
  function ScheduleWord(ks: seq<Block>, i: nat): (w: seq<Byte>)
    requires i < 4 * |ks|
    ensures |w| == 4
  {
    Word(ks[i / 4], i % 4)
  }

  /** FIPS 197 SubWord of lane 3 of b. aeskeygenassist reads it from AESE
      with an all-zero key: ShiftRows moves bytes 12 .. 15 to positions 12,
      9, 6 and 3, which lane 2 of the shuffle selects. */
  function SubWordOfLast(aes: Intrinsics, b: Block): (w: seq<Byte>)
    ensures |w| == 4
  {
    Word(KeygenShuffle(aes, b), 2)
  }

  /** The `temp` of FIPS 197, section 5.2, for word i of the AES-256
      schedule (Nk = 8): SubWord(RotWord(w[i - 1])) xor Rcon[i / 8] when
      i mod 8 = 0, SubWord(w[i - 1]) when i mod 8 = 4, and w[i - 1]
      otherwise. RotWord and SubWord commute, and Rcon[i / 8] is the word
      {Rcon(i / 8), 0, 0, 0}. */
  function Temp(aes: Intrinsics, ks: seq<Block>, i: nat): (t: seq<Byte>)
    requires 8 <= i < 60 && i <= 4 * |ks|
    ensures |t| == 4
  {
    if i % 8 == 0 then Xor(RotWord(SubWordOfLast(aes, ks[i / 4 - 1])), LeBytes32(Rcon(i / 8)))
    else if i % 8 == 4 then SubWordOfLast(aes, ks[i / 4 - 1])
    else ScheduleWord(ks, i - 1)
  }

  /** The recurrence for the first word of an even round key (i mod 8 = 0):
      temp is SubWord(RotWord(w[i - 1])) xor Rcon[i / 8]. */
  lemma RecurrenceRotWord(aes: Intrinsics, ks: seq<Block>, i: nat)
    requires Scheduled(aes, ks) && 8 <= i < 60 && i % 8 == 0
    ensures ScheduleWord(ks, i) == Xor(ScheduleWord(ks, i - 8), Temp(aes, ks, i))
  {
    var h := i / 8;
    ScheduledEven(aes, ks, h);
    AssistEvenRecurrence(ks[2 * h - 2], KeygenAssist(aes, ks[2 * h - 1], Rcon(h)));
    assert i / 4 == 2 * h && i % 4 == 0 && (i - 8) / 4 == 2 * h - 2 && (i - 8) % 4 == 0;
  }

  /** The recurrence for the first word of an odd round key (i mod 8 = 4):
      temp is SubWord(w[i - 1]). */
  lemma RecurrenceSubWord(aes: Intrinsics, ks: seq<Block>, i: nat)
    requires Scheduled(aes, ks) && 8 <= i < 60 && i % 8 == 4
    ensures ScheduleWord(ks, i) == Xor(ScheduleWord(ks, i - 8), Temp(aes, ks, i))
  {
    var h := i / 8;
    ScheduledOdd(aes, ks, h);
    AssistOddRecurrence(aes, ks[2 * h], ks[2 * h - 1]);
    assert i / 4 == 2 * h + 1 && i % 4 == 0 && (i - 8) / 4 == 2 * h - 1 && (i - 8) % 4 == 0;
  }

  /** Word j (1 <= j < 4) of even key 2h is word j of key 2h - 2 XOR word
      j - 1 of key 2h. */
  lemma ScheduledEvenChain(aes: Intrinsics, ks: seq<Block>, h: nat, j: nat)
    requires Scheduled(aes, ks) && 1 <= h <= 7 && 1 <= j < 4
    ensures Word(ks[2 * h], j) == Xor(Word(ks[2 * h - 2], j), Word(ks[2 * h], j - 1))
  {
    ScheduledEven(aes, ks, h);
    AssistEvenRecurrence(ks[2 * h - 2], KeygenAssist(aes, ks[2 * h - 1], Rcon(h)));
  }

  /** Word j (1 <= j < 4) of odd key 2h + 1 is word j of key 2h - 1 XOR
      word j - 1 of key 2h + 1. */
  lemma ScheduledOddChain(aes: Intrinsics, ks: seq<Block>, h: nat, j: nat)
    requires Scheduled(aes, ks) && 1 <= h <= 6 && 1 <= j < 4
    ensures Word(ks[2 * h + 1], j) == Xor(Word(ks[2 * h - 1], j), Word(ks[2 * h + 1], j - 1))
  {
    ScheduledOdd(aes, ks, h);
    AssistOddRecurrence(aes, ks[2 * h], ks[2 * h - 1]);
  }

  /** The recurrence for the other words of an even round key: temp is w[i - 1]. */
  lemma RecurrenceEvenChain(aes: Intrinsics, ks: seq<Block>, i: nat)
    requires Scheduled(aes, ks) && 8 <= i < 60 && 0 < i % 8 < 4
    ensures ScheduleWord(ks, i) == Xor(ScheduleWord(ks, i - 8), Temp(aes, ks, i))
  {
    var h, j := i / 8, i % 8;
    assert i / 4 == 2 * h && i % 4 == j && (i - 1) / 4 == 2 * h && (i - 1) % 4 == j - 1 &&
      (i - 8) / 4 == 2 * h - 2 && (i - 8) % 4 == j;
    ScheduledEvenChain(aes, ks, h, j);
  }

  /** The recurrence for the other words of an odd round key: temp is w[i - 1]. */
  lemma RecurrenceOddChain(aes: Intrinsics, ks: seq<Block>, i: nat)
    requires Scheduled(aes, ks) && 8 <= i < 60 && 4 < i % 8
    ensures ScheduleWord(ks, i) == Xor(ScheduleWord(ks, i - 8), Temp(aes, ks, i))
  {
    var h, j := i / 8, i % 8 - 4;
    assert i / 4 == 2 * h + 1 && i % 4 == j && (i - 1) / 4 == 2 * h + 1 && (i - 1) % 4 == j - 1 &&
      (i - 8) / 4 == 2 * h - 1 && (i - 8) % 4 == j;
    ScheduledOddChain(aes, ks, h, j);
  }

  /** Any key schedule satisfies the recurrence of FIPS 197, section 5.2:
      w[i] = w[i - 8] xor temp for 8 <= i < 60. */
  lemma ScheduledRecurrence(aes: Intrinsics, ks: seq<Block>, i: nat)
    requires Scheduled(aes, ks) && 8 <= i < 60
    ensures ScheduleWord(ks, i) == Xor(ScheduleWord(ks, i - 8), Temp(aes, ks, i))
  {
    if i % 8 == 0 {
      RecurrenceRotWord(aes, ks, i);
    } else if i % 8 == 4 {
      RecurrenceSubWord(aes, ks, i);
    } else if i % 8 < 4 {
      RecurrenceEvenChain(aes, ks, i);
    } else {
      RecurrenceOddChain(aes, ks, i);
    }
  }

  /** The schedule satisfies the key expansion of FIPS 197, section 5.2:
      words 0 .. 7 are the key, and w[i] = w[i - 8] xor temp for 8 <= i < 60. */
  lemma KeyScheduleRecurrence(aes: Intrinsics, key: seq<Byte>, i: nat)
    requires |key| == 32 && 8 <= i < 60
    ensures var ks := KeySchedule(aes, key);
      ScheduleWord(ks, i) == Xor(ScheduleWord(ks, i - 8), Temp(aes, ks, i))
  {
    KeyScheduleScheduled(aes, key);
    ScheduledRecurrence(aes, KeySchedule(aes, key), i);
  }


  /** expand256: computes round keys 0 .. 14 through the running
      temp1/temp2/temp3 and stores them in keyExp[0 .. 14]. The source spells
      out six identical pairs of steps with the round constants 0x01 .. 0x20
      and a last even step with 0x40; here the pairs are the iterations of a
      loop over Rcon(1) .. Rcon(6). The keys are collected in `keys` and
      stored together at the end: nothing reads keyExp in between, so the
      final contents are the same. */
  method Expand256(aes: Intrinsics, keyExp: array<Block>, userkey: seq<Byte>)
    requires |userkey| == 32 && keyExp.Length >= 15
    modifies keyExp
    ensures keyExp[..15] == KeySchedule(aes, userkey)
    ensures keyExp[15..] == old(keyExp[15..])
  {
    var temp1: Block, temp2: Block, temp3: Block;
    temp1 := userkey[..16];
    temp3 := userkey[16..];
    var keys := [temp1, temp3];
    for i := 1 to 7
      invariant keys == SchedulePairs(aes, userkey, i)
      invariant temp1 == keys[2 * i - 2] && temp3 == keys[2 * i - 1]
      modifies {}
    {
      ghost var a, b := temp1, temp3;
      temp2 := KeygenAssist(aes, temp3, Rcon(i));
      temp1 := AssistEven(temp1, temp2);
      temp3 := AssistOdd(aes, temp1, temp3);
      SchedulePairsStep(aes, userkey, i, keys, a, b, temp2, temp1, temp3);
      keys := keys + [temp1, temp3];
    }
    temp2 := KeygenAssist(aes, temp3, Rcon(7));
    KeyScheduleLast(aes, userkey, keys, temp1, temp3, temp2, AssistEven(temp1, temp2));
    keys := keys + [AssistEven(temp1, temp2)];
    forall k | 0 <= k < 15 {
      keyExp[k] := keys[k];
    }
    assert keyExp[..15] == keys;
    assert forall k :: 15 <= k < keyExp.Length ==> keyExp[k] == old(keyExp[k]);
  }

  // ---------------------------------------------------------------------
  // Counter (increment_be_neon)
  // ---------------------------------------------------------------------

  /** vrev32q_u8: reverses the bytes inside each 32-bit lane. */
  function Rev32(b: Block): (r: Block)
    ensures LaneValue(r, 0) == Be32(Word(b, 0)) && LaneValue(r, 1) == Be32(Word(b, 1))
    ensures LaneValue(r, 2) == Be32(Word(b, 2)) && LaneValue(r, 3) == Be32(Word(b, 3))
  {
    [b[3], b[2], b[1], b[0], b[7], b[6], b[5], b[4],
     b[11], b[10], b[9], b[8], b[15], b[14], b[13], b[12]]
  }

  /** Lane j read as a little-endian 32-bit integer. */
  function LaneValue(b: Block, j: nat): bv32
    requires j < 4
  {
    (b[4 * j] as bv32) | (b[4 * j + 1] as bv32 << 8) | (b[4 * j + 2] as bv32 << 16) | (b[4 * j + 3] as bv32 << 24)
  }

  /** vaddq_s32(b, d): lane-wise 32-bit addition, wrapping at 2^32 (a signed
      and an unsigned 32-bit add give the same bits). */
  function AddLanes(b: Block, d: seq<bv32>): (r: Block)
    requires |d| == 4
    ensures LaneValue(r, 0) == LaneValue(b, 0) + d[0] && LaneValue(r, 1) == LaneValue(b, 1) + d[1]
    ensures LaneValue(r, 2) == LaneValue(b, 2) + d[2] && LaneValue(r, 3) == LaneValue(b, 3) + d[3]
  {
    var r: Block := AddLane(b, 0, d[0]) + AddLane(b, 1, d[1]) + AddLane(b, 2, d[2]) + AddLane(b, 3, d[3]);
    LaneOfLeBytes(r, 0, LaneValue(b, 0) + d[0]);
    LaneOfLeBytes(r, 1, LaneValue(b, 1) + d[1]);
    LaneOfLeBytes(r, 2, LaneValue(b, 2) + d[2]);
    LaneOfLeBytes(r, 3, LaneValue(b, 3) + d[3]);
    r
  }

  /** A lane holding the little-endian bytes of x reads back as x. */
  lemma LaneOfLeBytes(r: Block, j: nat, x: bv32)
    requires j < 4 && Word(r, j) == LeBytes32(x)
    ensures LaneValue(r, j) == x
  {
    assert r[4 * j] == Word(r, j)[0] && r[4 * j + 1] == Word(r, j)[1];
    assert r[4 * j + 2] == Word(r, j)[2] && r[4 * j + 3] == Word(r, j)[3];
  }

  /** Lane j of vaddq_s32(b, d) as bytes. */
  function AddLane(b: Block, j: nat, d: bv32): (w: seq<Byte>)
    requires j < 4
    ensures |w| == 4
  {
    LeBytes32(LaneValue(b, j) + d)
  }


  /** Four bytes read as a big-endian 32-bit integer. */
  function Be32(w: seq<Byte>): bv32
    requires |w| == 4
  {
    (w[0] as bv32 << 24) | (w[1] as bv32 << 16) | (w[2] as bv32 << 8) | (w[3] as bv32)
  }

  /** The big-endian bytes of a 32-bit integer. */
  function BeBytes32(n: bv32): (w: seq<Byte>)
    ensures |w| == 4
  {
    [(n >> 24) as Byte, ((n >> 16) & 0xff) as Byte, ((n >> 8) & 0xff) as Byte, (n & 0xff) as Byte]
  }

  /** The counter step of NIST SP 800-38A, appendix B.1, on a 32-bit counter
      field: bytes 12 .. 15 are incremented as a big-endian integer by ripple
      carry, wrapping to zero, and bytes 0 .. 11 are kept. */
  function IncrementBe32(x: Block): (r: Block)
    ensures r[..12] == x[..12]
    ensures BeValue(r[12..]) == (BeValue(x[12..]) + 1) % TwoTo32
  {
    var r: Block := x[..12] + Increment(x[12..]);
    assert r[12..] == Increment(x[12..]);
    Increment32Value(x[12..]);
    r
  }

  lemma LeBytesOfLane(b: Block, j: nat)
    requires j < 4
    ensures LeBytes32(LaneValue(b, j)) == Word(b, j)
  {
  }

  /** Adding zero to a lane leaves its bytes as they are. */
  lemma AddLaneZero(b: Block, j: nat)
    requires j < 4
    ensures AddLane(b, j, 0) == Word(b, j)
  {
    LeBytesOfLane(b, j);
  }

  /** vaddq_s32 with {0, 0, 0, d} changes only the last lane. */
  lemma AddLanesLast(y: Block, d: bv32)
    ensures AddLanes(y, [0, 0, 0, d]) == y[..12] + AddLane(y, 3, d)
  {
    assert AddLanes(y, [0, 0, 0, d]) == AddLane(y, 0, 0) + AddLane(y, 1, 0) + AddLane(y, 2, 0) + AddLane(y, 3, d);
    AddLaneZero(y, 0);
    AddLaneZero(y, 1);
    AddLaneZero(y, 2);
    assert y[..12] == Word(y, 0) + Word(y, 1) + Word(y, 2);
  }

  /** Reversing back a register whose first three lanes are the reversed
      ones of x restores bytes 0 .. 11 of x. */
  lemma Rev32Back(x: Block, w: seq<Byte>)
    requires |w| == 4
    ensures Rev32(Rev32(x)[..12] + w) == x[..12] + [w[3], w[2], w[1], w[0]]
  {
  }

  /** The lane arithmetic of increment_be_neon: adding one to the byte-reversed
      last lane gives the big-endian successor of bytes 12 .. 15. */
  lemma IncrementBeNeonLanes(x: Block)
    ensures Rev32(AddLanes(Rev32(x), [0, 0, 0, 1])) == x[..12] + BeBytes32(Be32(x[12..]) + 1)
  {
    var y := Rev32(x);
    var n := Be32(x[12..]) + 1;
    var w := AddLane(y, 3, 1);
    assert AddLanes(y, [0, 0, 0, 1]) == y[..12] + w by {
      AddLanesLast(y, 1);
    }
    assert w == LeBytes32(n) by {
      assert Word(x, 3) == x[12..];
    }
    assert Rev32(y[..12] + w) == x[..12] + [w[3], w[2], w[1], w[0]] by {
      Rev32Back(x, w);
    }
    LeBeReverse(w, n);
  }

  /** The little-endian bytes of n, read backwards, are its big-endian bytes. */
  lemma LeBeReverse(w: seq<Byte>, n: bv32)
    requires w == LeBytes32(n)
    ensures [w[3], w[2], w[1], w[0]] == BeBytes32(n)
  {
  }

  /** Adding one to a big-endian 32-bit integer, byte by byte. */
  lemma Be32SuccessorBytes(a: Byte, b: Byte, c: Byte, d: Byte)
    ensures BeBytes32(Be32([a, b, c, d]) + 1) ==
      if d != 0xff then [a, b, c, d + 1]
      else if c != 0xff then [a, b, c + 1, 0]
      else if b != 0xff then [a, b + 1, 0, 0]
      else [a + 1, 0, 0, 0]
  {
  }

  /** The ripple carry on p + [x]: x == 0xff carries into p. */
  lemma IncrementLast(s: seq<Byte>, p: seq<Byte>, x: Byte)
    requires s == p + [x]
    ensures x == 0xff ==> Increment(s) == Increment(p) + [0]
    ensures x != 0xff ==> Increment(s) == p + [x + 1]
  {
    assert s[..|p|] == p;
  }

  /** The ripple carry on four bytes, case by case. */
  lemma IncrementFour(a: Byte, b: Byte, c: Byte, d: Byte)
    ensures Increment([a, b, c, d]) ==
      if d != 0xff then [a, b, c, d + 1]
      else if c != 0xff then [a, b, c + 1, 0]
      else if b != 0xff then [a, b + 1, 0, 0]
      else [a + 1, 0, 0, 0]
  {
    IncrementLast([a, b, c, d], [a, b, c], d);
    if d == 0xff {
      IncrementLast([a, b, c], [a, b], c);
      if c == 0xff {
        IncrementLast([a, b], [a], b);
        if b == 0xff {
          IncrementLast([a], [], a);
        }
      }
    }
  }

  /** A 32-bit big-endian add of one is the ripple-carry increment. */
  lemma Be32Successor(w: seq<Byte>)
    requires |w| == 4
    ensures BeBytes32(Be32(w) + 1) == Increment(w)
  {
    assert w == [w[0], w[1], w[2], w[3]];
    Be32SuccessorBytes(w[0], w[1], w[2], w[3]);
    IncrementFour(w[0], w[1], w[2], w[3]);
  }

  /** increment_be_neon: byte-reverse each lane, add {0, 0, 0, 1}, reverse
      back. The result is the big-endian increment of the last 32-bit lane,
      with no carry into bytes 0 .. 11. */
  method IncrementBeNeon(x: Block) returns (y: Block)
    ensures y == IncrementBe32(x)
  {
    var r := Rev32(x);
    r := AddLanes(r, [0, 0, 0, 1]);
    y := Rev32(r);
    IncrementBeNeonLanes(x);
    Be32Successor(x[12..]);
  }

  /** f applied n times to c. */
  function Iterate(f: Block -> Block, c: Block, n: nat): Block
  {
    if n == 0 then c else f(Iterate(f, c, n - 1))
  }

  /** m applications followed by n more are total = m + n applications. */
  lemma {:induction false} IterateAdd(f: Block -> Block, c: Block, m: nat, n: nat, total: nat)
    requires total == m + n
    ensures Iterate(f, Iterate(f, c, m), n) == Iterate(f, c, total)
  {
    if n > 0 {
      IterateAdd(f, c, m, n - 1, total - 1);
    }
  }

  /** Iterating from f(c) is iterating from c one step further. */
  lemma IterateShift(f: Block -> Block, c: Block, n: nat)
    ensures Iterate(f, f(c), n) == Iterate(f, c, n + 1)
  {
    assert Iterate(f, c, 1) == f(c);
    IterateAdd(f, c, 1, n, n + 1);
  }

  /** The counter after n blocks. */
  function CounterAt(c: Block, n: nat): Block
  {
    Iterate(IncrementBe32, c, n)
  }

  /** One more increment is one more counter step. */
  lemma CounterAtNext(c: Block, n: nat, x: Block)
    requires x == CounterAt(c, n)
    ensures IncrementBe32(x) == CounterAt(c, n + 1)
  {
  }

  /** The ripple carry on a 32-bit field is addition of one modulo 2^32. */
  lemma Increment32Value(w: seq<Byte>)
    requires |w| == 4
    ensures BeValue(Increment(w)) == (BeValue(w) + 1) % TwoTo32
  {
    IncrementSum(w);
    BeValueBound(w);
    assert Pow256(4) == TwoTo32;
    var x := BeValue(w) + 1;
    if x < TwoTo32 {
      ModBelow(x, TwoTo32);
    } else {
      assert x == TwoTo32;
    }
  }

  lemma ModSuccessor32(x: nat)
    ensures (x % TwoTo32 + 1) % TwoTo32 == (x + 1) % TwoTo32
  {
  }

  /** After n blocks the upper 96 bits of the counter are those it started
      with and the low 32 bits, read big-endian, have advanced by n modulo 2^32. */
  lemma {:induction false} CounterAtSpec(c: Block, n: nat)
    ensures CounterAt(c, n)[..12] == c[..12]
    ensures BeValue(CounterAt(c, n)[12..]) == (BeValue(c[12..]) + n) % TwoTo32
  {
    if n == 0 {
      BeValueBound(c[12..]);
      ModBelow(BeValue(c[12..]), TwoTo32);
    } else {
      var p := CounterAt(c, n - 1);
      CounterAtSpec(c, n - 1);
      Increment32Value(p[12..]);
      assert CounterAt(c, n)[12..] == Increment(p[12..]);
      assert Pow256(4) == TwoTo32;
      ModSuccessor32(BeValue(c[12..]) + n - 1);
    }
  }

  /** m counter steps followed by n more are total = m + n steps. */
  lemma CounterAtAdd(c: Block, m: nat, n: nat, total: nat)
    requires total == m + n
    ensures CounterAt(CounterAt(c, m), n) == CounterAt(c, total)
  {
    IterateAdd(IncrementBe32, c, m, n, total);
  }

  // ---------------------------------------------------------------------
  // Block cipher and keystream (aesctr256_direct_x4, aesctr256)
  // ---------------------------------------------------------------------

  /** n full rounds (AESE then AESMC) with round keys rk[0 .. n-1]. */
  function FullRounds(aes: Intrinsics, rk: seq<Block>, s: Block, n: nat): Block
    requires n <= |rk|
  {
    if n == 0 then s else aes.aesmc(aes.aese(FullRounds(aes, rk, s, n - 1), rk[n - 1]))
  }

  /** Round 0 first, then n more rounds with the keys after rk[0]: the
      order in which aesctr256_direct_x4 applies them. */
  lemma {:induction false} FullRoundsFirst(aes: Intrinsics, rk: seq<Block>, s: Block, n: nat)
    requires n + 1 <= |rk|
    ensures FullRounds(aes, rk, s, n + 1) == FullRounds(aes, rk[1..], aes.aesmc(aes.aese(s, rk[0])), n)
  {
    if n > 0 {
      FullRoundsFirst(aes, rk, s, n - 1);
      assert rk[1..][n - 1] == rk[n];
    }
  }

  /** One block through AES-256: 13 full rounds with rk[0 .. 12], a last
      AESE with rk[13] and no MixColumns, and a final XOR with rk[14]. As
      the source spells it out: round 0, then rounds 1 .. 12, then the last
      two steps. */
  function Encrypt(aes: Intrinsics, rk: seq<Block>, x: Block): (r: Block)
    requires |rk| >= 15
    ensures r == Xor(aes.aese(FullRounds(aes, rk[1..], aes.aesmc(aes.aese(x, rk[0])), 12), rk[13]), rk[14])
  {
    FullRoundsFirst(aes, rk, x, 12);
    Xor(aes.aese(FullRounds(aes, rk, x, 13), rk[13]), rk[14])
  }

  /** g applied to each of c, f(c), ..., f^(n-1)(c), the results concatenated. */
  function Blocks(f: Block -> Block, g: Block -> Block, c: Block, n: nat): (ks: seq<Byte>)
    ensures |ks| == 16 * n
  {
    if n == 0 then [] else Blocks(f, g, c, n - 1) + g(Iterate(f, c, n - 1))
  }

  /** The last block of Blocks(f, g, c, n), n > 0. */
  lemma BlocksUnfold(f: Block -> Block, g: Block -> Block, c: Block, n: nat)
    requires n > 0
    ensures Blocks(f, g, c, n) == Blocks(f, g, c, n - 1) + g(Iterate(f, c, n - 1))
  {
  }

  /** Blocks over m + n iterates is Blocks over the first m followed by
      Blocks over the next n. */
  lemma {:induction false} BlocksSplit(f: Block -> Block, g: Block -> Block, c: Block, m: nat, n: nat, total: nat)
    requires total == m + n
    ensures Blocks(f, g, c, total) == Blocks(f, g, c, m) + Blocks(f, g, Iterate(f, c, m), n)
  {
    if n > 0 {
      var x := Iterate(f, c, m);
      BlocksSplit(f, g, c, m, n - 1, total - 1);
      IterateAdd(f, c, m, n - 1, total - 1);
      BlocksUnfold(f, g, c, total);
      BlocksUnfold(f, g, x, n);
    }
  }

  /** The block cipher under round keys rk, as a function value. */
  function Cipher(aes: Intrinsics, rk: seq<Block>): Block -> Block
    requires |rk| >= 15
  {
    x => Encrypt(aes, rk, x)
  }

  /** The first n keystream blocks from counter c: block i encrypts the
      counter value held before the i-th increment. */
  function Keystream(aes: Intrinsics, rk: seq<Block>, c: Block, n: nat): (ks: seq<Byte>)
    requires |rk| >= 15
    ensures |ks| == 16 * n
  {
    Blocks(IncrementBe32, Cipher(aes, rk), c, n)
  }

  /** Block i of Blocks(f, g, c, n) is g applied to the i-th iterate. */
  lemma {:induction false} BlocksAt(f: Block -> Block, g: Block -> Block, c: Block, n: nat, i: nat)
    requires i < n
    ensures Blocks(f, g, c, n)[16 * i .. 16 * i + 16] == g(Iterate(f, c, i))
  {
    if i < n - 1 {
      BlocksAt(f, g, c, n - 1, i);
      var p := Blocks(f, g, c, n - 1);
      BlocksUnfold(f, g, c, n);
      assert Blocks(f, g, c, n)[16 * i .. 16 * i + 16] == p[16 * i .. 16 * i + 16];
    }
  }

  /** Block i of the keystream is the encryption of the counter after i increments. */
  lemma KeystreamBlock(aes: Intrinsics, rk: seq<Block>, c: Block, n: nat, i: nat)
    requires |rk| >= 15 && i < n
    ensures Keystream(aes, rk, c, n)[16 * i .. 16 * i + 16] == Encrypt(aes, rk, CounterAt(c, i))
  {
    BlocksAt(IncrementBe32, Cipher(aes, rk), c, n, i);
  }

  /** The keystream of m + n blocks is the keystream of m blocks followed by
      that of n blocks from the counter m steps on: how the blocks are split
      between the 4-way loop and the remainder loop does not matter. */
  lemma KeystreamSplit(aes: Intrinsics, rk: seq<Block>, c: Block, m: nat, n: nat, total: nat)
    requires |rk| >= 15 && total == m + n
    ensures Keystream(aes, rk, c, total) == Keystream(aes, rk, c, m) + Keystream(aes, rk, CounterAt(c, m), n)
  {
    BlocksSplit(IncrementBe32, Cipher(aes, rk), c, m, n, total);
  }

  /** Appending the keystream of n blocks from the counter m steps on, with
      the counter n steps further on: the step of both loops of
      aesctr256_direct_x4 and the join between them. */
  lemma KeystreamAppend(aes: Intrinsics, rk: seq<Block>, c: Block, m: nat, n: nat, total: nat,
                        ks: seq<Byte>, x: Block, more: seq<Byte>, next: Block)
    requires |rk| >= 15 && total == m + n
    requires ks == Keystream(aes, rk, c, m) && x == CounterAt(c, m)
    requires more == Keystream(aes, rk, x, n) && next == CounterAt(x, n)
    ensures ks + more == Keystream(aes, rk, c, total) && next == CounterAt(c, total)
  {
    KeystreamSplit(aes, rk, c, m, n, total);
    CounterAtAdd(c, m, n, total);
  }

  /** The four keystream blocks from counter c, as the list of their encryptions. */
  lemma KeystreamFour(aes: Intrinsics, rk: seq<Block>, c: Block, s1: Block, s2: Block, s3: Block, s4: Block)
    requires |rk| >= 15
    requires s1 == Encrypt(aes, rk, c) && s2 == Encrypt(aes, rk, CounterAt(c, 1))
    requires s3 == Encrypt(aes, rk, CounterAt(c, 2)) && s4 == Encrypt(aes, rk, CounterAt(c, 3))
    ensures Keystream(aes, rk, c, 4) == s1 + s2 + s3 + s4
  {
    assert Keystream(aes, rk, c, 1) == s1;
    assert Keystream(aes, rk, c, 2) == s1 + s2;
    assert Keystream(aes, rk, c, 3) == s1 + s2 + s3;
  }

  /** Rounds 1 .. 13 and the final key XOR of the 4-way loop of
      aesctr256_direct_x4, each round applied to all four registers before
      the next: four registers that hold round 0 of x1 .. x4 end up holding
      their encryptions. */
  method RoundsX4(aes: Intrinsics, rkeys: seq<Block>, t1: Block, t2: Block, t3: Block, t4: Block,
                  ghost x1: Block, ghost x2: Block, ghost x3: Block, ghost x4: Block)
    returns (s1: Block, s2: Block, s3: Block, s4: Block)
    requires |rkeys| >= 15
    requires t1 == FullRounds(aes, rkeys, x1, 1) && t2 == FullRounds(aes, rkeys, x2, 1)
    requires t3 == FullRounds(aes, rkeys, x3, 1) && t4 == FullRounds(aes, rkeys, x4, 1)
    ensures s1 == Encrypt(aes, rkeys, x1) && s2 == Encrypt(aes, rkeys, x2)
    ensures s3 == Encrypt(aes, rkeys, x3) && s4 == Encrypt(aes, rkeys, x4)
  {
    s1, s2, s3, s4 := t1, t2, t3, t4;
    for r := 1 to 13
      invariant s1 == FullRounds(aes, rkeys, x1, r) && s2 == FullRounds(aes, rkeys, x2, r)
      invariant s3 == FullRounds(aes, rkeys, x3, r) && s4 == FullRounds(aes, rkeys, x4, r)
    {
      s1 := aes.aesmc(aes.aese(s1, rkeys[r]));
      s2 := aes.aesmc(aes.aese(s2, rkeys[r]));
      s3 := aes.aesmc(aes.aese(s3, rkeys[r]));
      s4 := aes.aesmc(aes.aese(s4, rkeys[r]));
    }
    s1 := Xor(aes.aese(s1, rkeys[13]), rkeys[14]);
    s2 := Xor(aes.aese(s2, rkeys[13]), rkeys[14]);
    s3 := Xor(aes.aese(s3, rkeys[13]), rkeys[14]);
    s4 := Xor(aes.aese(s4, rkeys[13]), rkeys[14]);
  }

  /** The body of the 4-way loop of aesctr256_direct_x4 before its stores:
      round 0 of four counter blocks, each taken before an
      increment_be_neon, then the remaining rounds of all four. */
  method EncryptX4(aes: Intrinsics, rkeys: seq<Block>, ctr: Block)
    returns (s1: Block, s2: Block, s3: Block, s4: Block, next: Block)
    requires |rkeys| >= 15
    ensures s1 + s2 + s3 + s4 == Keystream(aes, rkeys, ctr, 4)
    ensures next == CounterAt(ctr, 4)
  {
    var c := ctr;
    var t1 := aes.aesmc(aes.aese(c, rkeys[0]));
    c := IncrementBeNeon(c);
    CounterAtNext(ctr, 0, ctr);
    ghost var c2 := c;
    var t2 := aes.aesmc(aes.aese(c, rkeys[0]));
    c := IncrementBeNeon(c);
    CounterAtNext(ctr, 1, c2);
    ghost var c3 := c;
    var t3 := aes.aesmc(aes.aese(c, rkeys[0]));
    c := IncrementBeNeon(c);
    CounterAtNext(ctr, 2, c3);
    ghost var c4 := c;
    var t4 := aes.aesmc(aes.aese(c, rkeys[0]));
    c := IncrementBeNeon(c);
    CounterAtNext(ctr, 3, c4);
    next := c;
    s1, s2, s3, s4 := RoundsX4(aes, rkeys, t1, t2, t3, t4, ctr, c2, c3, c4);
    KeystreamFour(aes, rkeys, ctr, s1, s2, s3, s4);
  }

  /** The body of the one-block loop of aesctr256_direct_x4 before its store. */
  method EncryptOne(aes: Intrinsics, rkeys: seq<Block>, ctr: Block) returns (s1: Block, next: Block)
    requires |rkeys| >= 15
    ensures s1 == Keystream(aes, rkeys, ctr, 1)
    ensures next == CounterAt(ctr, 1)
  {
    s1 := aes.aesmc(aes.aese(ctr, rkeys[0]));
    next := IncrementBeNeon(ctr);
    CounterAtNext(ctr, 0, ctr);
    for r := 1 to 13
      invariant s1 == FullRounds(aes, rkeys, ctr, r)
    {
      s1 := aes.aesmc(aes.aese(s1, rkeys[r]));
    }
    s1 := aes.aese(s1, rkeys[13]);
    s1 := Xor(s1, rkeys[14]);
  }

  /** The 4-way loop of aesctr256_direct_x4: 4 * groups keystream blocks from
      counter, and the counter left after them. */
  method KeystreamX4(aes: Intrinsics, rkeys: seq<Block>, counter: Block, groups: nat)
    returns (ks: seq<Byte>, ctr: Block)
    requires |rkeys| >= 15
    ensures ks == Keystream(aes, rkeys, counter, 4 * groups)
    ensures ctr == CounterAt(counter, 4 * groups)
  {
    ks, ctr := [], counter;
    for g := 0 to groups
      invariant ctr == CounterAt(counter, 4 * g) && ks == Keystream(aes, rkeys, counter, 4 * g)
    {
      ghost var x := ctr;
      var s1, s2, s3, s4;
      s1, s2, s3, s4, ctr := EncryptX4(aes, rkeys, ctr);
      var quad: seq<Byte> := s1;
      quad := quad + s2 + s3 + s4;
      KeystreamAppend(aes, rkeys, counter, 4 * g, 4, 4 * (g + 1), ks, x, quad, ctr);
      ks := ks + quad;
    }
  }

  /** The one-block loop of aesctr256_direct_x4: n keystream blocks from
      counter, and the counter left after them. */
  method KeystreamSingle(aes: Intrinsics, rkeys: seq<Block>, counter: Block, n: nat)
    returns (ks: seq<Byte>, ctr: Block)
    requires |rkeys| >= 15
    ensures ks == Keystream(aes, rkeys, counter, n)
    ensures ctr == CounterAt(counter, n)
  {
    ks, ctr := [], counter;
    for i := 0 to n
      invariant ctr == CounterAt(counter, i) && ks == Keystream(aes, rkeys, counter, i)
    {
      ghost var x := ctr;
      var s1;
      s1, ctr := EncryptOne(aes, rkeys, ctr);
      KeystreamAppend(aes, rkeys, counter, i, 1, i + 1, ks, x, s1, ctr);
      ks := ks + s1;
    }
  }

  /** aesctr256_direct_x4: writes bytes / 16 keystream blocks at out + off,
      four blocks per iteration first, then one block per iteration; a
      trailing bytes % 16 is not written, and neither is anything else. The
      blocks of both loops are collected and stored together at the end:
      nothing reads out in between, so the final contents are the same. */
  method CtrDirectX4(aes: Intrinsics, out: array<Byte>, off: nat, rkeys: seq<Block>, counter: Block, bytes: nat)
    requires |rkeys| >= 15
    requires off + bytes <= out.Length
    modifies out
    ensures out[..] == Splice(old(out[..]), off, Keystream(aes, rkeys, counter, bytes / 16))
  {
    var blocks := bytes / 16;
    var blocksParallel := 4 * (blocks / 4);
    var blocksLeft := blocks - blocksParallel;
    var head, ctr := KeystreamX4(aes, rkeys, counter, blocks / 4);
    var tail, next := KeystreamSingle(aes, rkeys, ctr, blocksLeft);
    KeystreamAppend(aes, rkeys, counter, blocksParallel, blocksLeft, blocks, head, ctr, tail, next);
    CopyInto(out, off, head + tail);
  }

  /** aesctr256: expand the key into a local schedule, then run the engine. */
  method Ctr256(aes: Intrinsics, out: array<Byte>, off: nat, k: seq<Byte>, counter: Block, bytes: nat)
    requires |k| == 32
    requires off + bytes <= out.Length
    modifies out
    ensures out[..] == Splice(old(out[..]), off, Keystream(aes, KeySchedule(aes, k), counter, bytes / 16))
  {
    var rkeys := new Block[15](_ => ZeroBlock);
    Expand256(aes, rkeys, k);
    assert rkeys[..] == rkeys[..15];
    CtrDirectX4(aes, out, off, rkeys[..], counter, bytes);
  }

  /** aesctr256_zeroiv: aesctr256 with an all-zero 16-byte counter. */
  method Ctr256ZeroIv(aes: Intrinsics, out: array<Byte>, off: nat, sk: seq<Byte>, bytes: nat)
    requires |sk| == 32
    requires off + bytes <= out.Length
    modifies out
    ensures out[..] == Splice(old(out[..]), off, Keystream(aes, KeySchedule(aes, sk), ZeroBlock, bytes / 16))
  {
    var counter := ZeroBlock;
    Ctr256(aes, out, off, sk, counter, bytes);
  }

  /** A one-block request yields exactly the encryption of the counter. */
  lemma KeystreamOne(aes: Intrinsics, rk: seq<Block>, c: Block)
    requires |rk| >= 15
    ensures Keystream(aes, rk, c, 1) == Encrypt(aes, rk, c)
  {
  }
}
