/** `bitsToBytes` of encryption.js: key bits packed eight to a byte, most
    significant bit first, the last byte padded on the right with zeros. */
module BitPacking {
  import opened Codec

  /** Bit `i` as the packer reads it, `padded[i] & 1`: the low bit of the
      element, and 0 in the zero padding past the end. For an integer, the low
      bit of its 32-bit two's complement is its Euclidean remainder mod 2. */
  function BitAt(bits: seq<int>, i: nat): (b: int)
    ensures b == 0 || b == 1
  {
    if i < |bits| then bits[i] % 2 else 0
  }

  function Pow2(n: nat): nat {
    if n == 0 then 1 else 2 * Pow2(n - 1)
  }

  /** The value of `n` bits starting at `start`, read most significant first:
      the inner loop's `byte = (byte << 1) | bit`, which is `2 * byte + bit`
      because the shifted value has a zero low bit. */
  function ByteFrom(bits: seq<int>, start: nat, n: nat): int {
    if n == 0 then 0 else 2 * ByteFrom(bits, start, n - 1) + BitAt(bits, start + n - 1)
  }

  lemma {:induction false} ByteFromBound(bits: seq<int>, start: nat, n: nat)
    ensures 0 <= ByteFrom(bits, start, n) < Pow2(n)
  {
    if n > 0 {
      ByteFromBound(bits, start, n - 1);
    }
  }

  /** Byte `i` of the packed output. */
  function ByteOf(bits: seq<int>, i: nat): Byte {
    ByteFromBound(bits, 8 * i, 8);
    ByteFrom(bits, 8 * i, 8)
  }

  /** Number of bytes: the bit count rounded up to a multiple of 8, over 8. */
  function PackedLength(n: nat): nat {
    (n + 7) / 8
  }

  /** The packed bytes as a whole (the reference the loop below is proved against). */
  function PackBits(bits: seq<int>): (r: seq<Byte>)
    ensures |r| == PackedLength(|bits|)
  {
    seq(PackedLength(|bits|), i requires 0 <= i < PackedLength(|bits|) => ByteOf(bits, i))
  }

  /** `bitsToBytes`: copy the input, push zeros until the length is a multiple
      of 8, then fold each group of eight bits into a byte. The input is never
      changed (Dafny sequences are values; the source copies with `slice`). */
  method BitsToBytes(bits: seq<int>) returns (out: seq<Byte>)
    ensures out == PackBits(bits)
  {
    var padded := bits;
    var full := 8 * PackedLength(|bits|);
    while |padded| % 8 != 0
      invariant |bits| <= |padded| <= full
      invariant padded[..|bits|] == bits
      invariant forall k :: |bits| <= k < |padded| ==> padded[k] == 0
      decreases full - |padded|
    {
      padded := padded + [0];
    }
    assert |padded| == full;
    out := [];
    var i := 0;
    while i < |padded| / 8
      invariant 0 <= i <= |padded| / 8
      invariant |out| == i
      invariant forall m :: 0 <= m < i ==> out[m] == ByteOf(bits, m)
    {
      var byte := 0;
      var j := 0;
      while j < 8
        invariant 0 <= j <= 8
        invariant byte == ByteFrom(bits, 8 * i, j)
      {
        var k := i * 8 + j;
        assert padded[k] % 2 == BitAt(bits, k) by {
          if k < |bits| { assert padded[k] == padded[..|bits|][k]; }
        }
        byte := 2 * byte + padded[k] % 2;
        j := j + 1;
      }
      assert byte == ByteOf(bits, i);
      out := out + [byte];
      i := i + 1;
    }
  }

  // ---------- The inverse: reading bits back out of bytes ----------

  /** The `n` low bits of `x`, most significant first. */
  function BitsOfByte(x: int, n: nat): (r: seq<int>)
    ensures |r| == n
    decreases n
  {
    if n == 0 then [] else BitsOfByte(x / 2, n - 1) + [x % 2]
  }

  /** All bits of a byte string, eight per byte, most significant first:
      bit k is bit k % 8 of byte k / 8. */
  function UnpackBytes(bytes: seq<Byte>): (r: seq<int>)
    ensures |r| == 8 * |bytes|
  {
    seq(8 * |bytes|, k requires 0 <= k < 8 * |bytes| => BitsOfByte(bytes[k / 8], 8)[k % 8])
  }

  /** Unpacking a byte folded from `n` bits gives back exactly those bits. */
  lemma {:induction false} BitsOfByteFrom(bits: seq<int>, start: nat, n: nat)
    ensures BitsOfByte(ByteFrom(bits, start, n), n) == seq(n, j requires 0 <= j < n => BitAt(bits, start + j))
  {
    if n > 0 {
      BitsOfByteFrom(bits, start, n - 1);
      ByteFromBound(bits, start, n - 1);
      var b := ByteFrom(bits, start, n - 1);
      var x := BitAt(bits, start + n - 1);
      assert (2 * b + x) / 2 == b && (2 * b + x) % 2 == x;
    }
  }

  /** Reading the packed bytes back gives every input bit (its low bit), then
      zeros up to the next multiple of 8. */
  lemma UnpackPackBits(bits: seq<int>)
    ensures |UnpackBytes(PackBits(bits))| == 8 * PackedLength(|bits|)
    ensures forall k :: 0 <= k < 8 * PackedLength(|bits|) ==> UnpackBytes(PackBits(bits))[k] == BitAt(bits, k)
  {
    var out := PackBits(bits);
    forall k | 0 <= k < 8 * PackedLength(|bits|)
      ensures UnpackBytes(out)[k] == BitAt(bits, k)
    {
      var q, r := k / 8, k % 8;
      assert k == 8 * q + r;
      PackedBit(bits, q, r);
    }
  }

  /** Bit `j` (weight 2^(7-j)) of output byte `i` is input bit `8i+j`. */
  lemma PackedBit(bits: seq<int>, i: nat, j: nat)
    requires i < PackedLength(|bits|) && j < 8
    ensures BitsOfByte(PackBits(bits)[i], 8)[j] == BitAt(bits, 8 * i + j)
  {
    assert PackBits(bits)[i] == ByteFrom(bits, 8 * i, 8);
    BitsOfByteFrom(bits, 8 * i, 8);
    var spelled := seq(8, m requires 0 <= m < 8 => BitAt(bits, 8 * i + m));
    assert spelled[j] == BitAt(bits, 8 * i + j);
  }

  /** Two bit arrays that agree bit for bit, counting missing bits as zero,
      and need the same number of bytes pack identically: appending zeros up
      to the next multiple of 8 changes nothing. */
  lemma {:induction false} PackZeroPadding(bits: seq<int>, k: nat)
    requires PackedLength(|bits| + k) == PackedLength(|bits|)
    ensures PackBits(bits + seq(k, _ => 0)) == PackBits(bits)
  {
    var padded := bits + seq(k, _ => 0);
    forall m: nat ensures BitAt(padded, m) == BitAt(bits, m) {
      if m < |bits| { assert padded[m] == bits[m]; }
    }
    forall i | 0 <= i < PackedLength(|bits|) ensures ByteOf(padded, i) == ByteOf(bits, i) {
      ByteFromSame(padded, bits, 8 * i, 8);
    }
  }

  lemma {:induction false} ByteFromSame(a: seq<int>, b: seq<int>, start: nat, n: nat)
    requires forall m: nat :: BitAt(a, m) == BitAt(b, m)
    ensures ByteFrom(a, start, n) == ByteFrom(b, start, n)
  {
    if n > 0 {
      ByteFromSame(a, b, start, n - 1);
    }
  }

  /** The value the unit test expects: [1,0,1,0,1,0,1,0] packs to 0b10101010. */
  lemma PackAlternating()
    ensures PackBits([1, 0, 1, 0, 1, 0, 1, 0]) == [170]
  {
    var bits := [1, 0, 1, 0, 1, 0, 1, 0];
    assert ByteFrom(bits, 0, 8) == 170 by {
      assert ByteFrom(bits, 0, 1) == 1;
      assert ByteFrom(bits, 0, 2) == 2;
      assert ByteFrom(bits, 0, 3) == 5;
      assert ByteFrom(bits, 0, 4) == 10;
      assert ByteFrom(bits, 0, 5) == 21;
      assert ByteFrom(bits, 0, 6) == 42;
      assert ByteFrom(bits, 0, 7) == 85;
    }
  }
}
