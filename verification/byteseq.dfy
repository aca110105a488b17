/** Byte strings as the C code handles them: fixed-size uint8_t buffers,
    bytewise XOR, big-endian integers, and memcpy into a buffer at an offset. */
module ByteSeq {

  type Byte = bv8

  /** n zero bytes (memset(p, 0x00, n)). */
  function Zeros(n: nat): (r: seq<Byte>)
    ensures |r| == n && forall i :: 0 <= i < n ==> r[i] == 0
  {
    seq(n, _ => 0)
  }

  /** Bytewise XOR of two equally long buffers. */
  function Xor(a: seq<Byte>, b: seq<Byte>): (r: seq<Byte>)
    requires |a| == |b|
    ensures |r| == |a|
    ensures forall i {:trigger r[i]} :: 0 <= i < |a| ==> r[i] == a[i] ^ b[i]
  {
    seq(|a|, i requires 0 <= i < |a| => a[i] ^ b[i])
  }

  /** XOR with zeros changes nothing. */
  lemma XorZeros(w: seq<Byte>)
    ensures Xor(w, Zeros(|w|)) == w
  {
  }

  /** p extended with zero bytes to length n. */
  function Pad(p: seq<Byte>, n: nat): (r: seq<Byte>)
    requires |p| <= n
    ensures |r| == n && r[..|p|] == p
    ensures forall i :: |p| <= i < n ==> r[i] == 0
  {
    p + Zeros(n - |p|)
  }

  /** XOR of the first n bytes of p into e, the rest of e unchanged: the loop
      `seed_material[i] ^= personalization_string[i]` for i < n. */
  function XorPrefix(e: seq<Byte>, p: seq<Byte>, n: nat): (r: seq<Byte>)
    requires n <= |e| && n <= |p|
    ensures |r| == |e|
    ensures forall i :: 0 <= i < n ==> r[i] == e[i] ^ p[i]
    ensures forall i :: n <= i < |e| ==> r[i] == e[i]
  {
    Xor(e[..n], p[..n]) + e[n..]
  }

  /** The loop that XORs p into e byte by byte, one more step. */
  lemma XorPrefixStep(e: seq<Byte>, p: seq<Byte>, i: nat)
    requires i < |e| && i < |p|
    ensures XorPrefix(e, p, i)[i] == e[i]
    ensures XorPrefix(e, p, i + 1) == XorPrefix(e, p, i)[i := e[i] ^ p[i]]
  {
    assert XorPrefix(e, p, i + 1)[..i] == XorPrefix(e, p, i)[..i];
  }

  /** XOR of the whole of a shorter p is XOR with p padded with zeros. */
  lemma XorPrefixPad(e: seq<Byte>, p: seq<Byte>)
    requires |p| <= |e|
    ensures XorPrefix(e, p, |p|) == Xor(e, Pad(p, |e|))
  {
    var r := XorPrefix(e, p, |p|);
    assert forall i :: 0 <= i < |e| ==> r[i] == Xor(e, Pad(p, |e|))[i];
  }

  /** XOR with m after XOR with m gives back the original. */
  lemma XorMaskTwice(a: seq<Byte>, m: seq<Byte>)
    requires |a| == |m|
    ensures Xor(m, Xor(a, m)) == a
  {
    assert forall i :: 0 <= i < |a| ==> Xor(m, Xor(a, m))[i] == a[i];
  }

  lemma TakeDrop(s: seq<Byte>, k: nat)
    requires k <= |s|
    ensures s[..k] + s[k..] == s
  {
  }

  /** Memory after writing src into s at offset off (memcpy(s + off, src, |src|)). */
  function Splice(s: seq<Byte>, off: nat, src: seq<Byte>): (r: seq<Byte>)
    requires off + |src| <= |s|
    ensures |r| == |s|
    ensures r[..off] == s[..off] && r[off..off + |src|] == src && r[off + |src|..] == s[off + |src|..]
  {
    s[..off] + src + s[off + |src|..]
  }

  /** Writing a whole buffer's worth replaces its contents. */
  lemma SpliceWhole(s: seq<Byte>, src: seq<Byte>)
    requires |src| == |s|
    ensures Splice(s, 0, src) == src
  {
  }

  /** Writing b right after a prefix a extends that prefix by b. */
  lemma SpliceExtends(s: seq<Byte>, a: seq<Byte>, off: nat, b: seq<Byte>)
    requires off + |b| <= |s| && s[..off] == a
    ensures Splice(s, off, b)[..off + |b|] == a + b
  {
  }

  /** Byte by byte: src at off, s elsewhere, is the splice of src into s. */
  lemma SpliceBytewise(r: seq<Byte>, s: seq<Byte>, off: nat, src: seq<Byte>)
    requires |r| == |s| && off + |src| <= |s|
    requires forall j :: 0 <= j < |s| && !(off <= j < off + |src|) ==> r[j] == s[j]
    requires forall j :: off <= j < off + |src| ==> r[j] == src[j - off]
    ensures r == Splice(s, off, src)
  {
    assert forall j :: 0 <= j < |s| ==> r[j] == Splice(s, off, src)[j];
  }

  /** memcpy(dst + off, src, |src|). */
  method CopyInto(dst: array<Byte>, off: nat, src: seq<Byte>)
    requires off + |src| <= dst.Length
    modifies dst
    ensures dst[..] == Splice(old(dst[..]), off, src)
  {
    forall k | 0 <= k < |src| {
      dst[off + k] := src[k];
    }
  }

  /** The loop `for (i = 0; i < n; ++i) dst[i] ^= src[i];`. */
  method XorInto(dst: array<Byte>, src: seq<Byte>, n: nat)
    requires n <= dst.Length && n <= |src|
    modifies dst
    ensures dst[..] == XorPrefix(old(dst[..]), src, n)
  {
    ghost var d0 := dst[..];
    for i := 0 to n
      invariant dst[..] == XorPrefix(d0, src, i)
    {
      XorPrefixStep(d0, src, i);
      dst[i] := dst[i] ^ src[i];
    }
  }

  function Pow256(n: nat): (r: nat)
    ensures r >= 1
  {
    if n == 0 then 1 else 256 * Pow256(n - 1)
  }

  /** The unsigned integer whose big-endian spelling is s. */
  function BeValue(s: seq<Byte>): nat
  {
    if |s| == 0 then 0 else BeValue(s[..|s| - 1]) * 256 + s[|s| - 1] as int
  }

  /** A big-endian spelling of |s| bytes names a number below 256^|s|. */
  lemma {:induction false} BeValueBound(s: seq<Byte>)
    ensures BeValue(s) < Pow256(|s|)
  {
    if s != [] {
      var p := s[..|s| - 1];
      BeValueBound(p);
      assert BeValue(s) <= (Pow256(|p|) - 1) * 256 + 255;
    }
  }

  /** Big-endian increment by ripple carry from the last byte: trailing 0xff
      bytes become 0x00, the last byte that is not 0xff gains one, and the
      bytes before it are kept. */
  function Increment(s: seq<Byte>): (r: seq<Byte>)
    ensures |r| == |s|
  {
    if |s| == 0 then []
    else if s[|s| - 1] == 0xff then Increment(s[..|s| - 1]) + [0]
    else s[..|s| - 1] + [s[|s| - 1] + 1]
  }

  lemma ByteSuccessor(b: Byte)
    requires b != 0xff
    ensures (b + 1) as int == b as int + 1
  {
  }

  lemma ModBelow(x: int, m: int)
    requires 0 <= x < m
    ensures x % m == x
  {
  }

  /** A carry out of the last byte: the value is that of the incremented prefix, shifted. */
  lemma CarryValue(s: seq<Byte>, p: seq<Byte>)
    requires s != [] && p == s[..|s| - 1] && s[|s| - 1] == 0xff
    ensures BeValue(Increment(s)) == BeValue(Increment(p)) * 256
  {
    var q := Increment(s);
    assert q[..|s| - 1] == Increment(p);
  }

  /** No carry out of the last byte: it alone gains one. */
  lemma NoCarryValue(s: seq<Byte>, p: seq<Byte>)
    requires s != [] && p == s[..|s| - 1] && s[|s| - 1] != 0xff
    ensures BeValue(Increment(s)) == BeValue(p) * 256 + s[|s| - 1] as int + 1
  {
    var q := Increment(s);
    assert q[..|s| - 1] == p;
    ByteSuccessor(s[|s| - 1]);
  }

  /** The ripple carry adds one, or wraps to zero from the largest value. */
  lemma {:induction false} IncrementSum(s: seq<Byte>)
    ensures BeValue(s) + 1 < Pow256(|s|) ==> BeValue(Increment(s)) == BeValue(s) + 1
    ensures BeValue(s) + 1 >= Pow256(|s|) ==> BeValue(Increment(s)) == 0
  {
    if s != [] {
      var p := s[..|s| - 1];
      BeValueBound(p);
      assert Pow256(|s|) == 256 * Pow256(|p|);
      assert BeValue(s) == BeValue(p) * 256 + s[|s| - 1] as int;
      if s[|s| - 1] == 0xff {
        IncrementSum(p);
        CarryValue(s, p);
      } else {
        NoCarryValue(s, p);
      }
    }
  }

  /** Past a run of trailing 0xff bytes, the ripple carry turns that run into
      zeros and increments what precedes it. */
  lemma {:induction false} IncrementTrailing(s: seq<Byte>, j: int)
    requires -1 <= j < |s|
    requires forall k :: j < k < |s| ==> s[k] == 0xff
    ensures Increment(s) == Increment(s[..j + 1]) + Zeros(|s| - 1 - j)
  {
    if j < |s| - 1 {
      var p := s[..|s| - 1];
      IncrementTrailing(p, j);
      assert p[..j + 1] == s[..j + 1];
      assert Zeros(|p| - 1 - j) + [0] == Zeros(|s| - 1 - j);
    } else {
      assert s[..j + 1] == s;
    }
  }
}
