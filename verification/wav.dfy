/** `samplesToWavBlob` of audioFileUtils.js: the canonical 44-byte RIFF/WAVE
    header for mono 16-bit PCM (Microsoft RIFF WAVE format, a `fmt ` chunk of
    16 bytes and a `data` chunk) followed by the samples, all integers little
    endian. The float-to-int16 sample conversion is outside the model: the
    samples arrive as 16-bit integers. A reader for the same layout is the
    partner the writer is proved against. */
module Wav {
  import opened JsValue
  import opened Codec

  type Int16 = x: int | -0x8000 <= x < 0x8000

  const HeaderSize: nat := 44
  const DefaultSampleRate: int := 48000
  const TwoTo16: nat := 0x1_0000
  const TwoTo32: nat := 0x1_0000_0000

  // ---------- Writing: DataView setters ----------

  /** `setUint8(off, s.charCodeAt(i))` for each character: the code unit
      reduced mod 256. */
  function Ascii(s: string): (r: seq<Byte>)
    ensures |r| == |s|
    ensures forall i :: 0 <= i < |s| ==> r[i] == (s[i] as int) % 256
  {
    seq(|s|, i requires 0 <= i < |s| => (s[i] as int) % 256)
  }

  /** The characters of a byte string, one per byte: how a reader sees a
      chunk tag. */
  function AsciiText(bytes: seq<Byte>): (r: string)
    ensures |r| == |bytes|
  {
    seq(|bytes|, i requires 0 <= i < |bytes| => bytes[i] as char)
  }

  /** Text of code units below 256 (every chunk tag) is written one byte per
      character and reads back as itself. */
  lemma AsciiRoundTrip(s: string)
    requires forall i :: 0 <= i < |s| ==> (s[i] as int) < 256
    ensures AsciiText(Ascii(s)) == s
  {
  }

  /** The four chunk tags as bytes, as the RIFF WAVE layout fixes them. */
  lemma ChunkTags()
    ensures Ascii("RIFF") == [0x52, 0x49, 0x46, 0x46]
    ensures Ascii("WAVE") == [0x57, 0x41, 0x56, 0x45]
    ensures Ascii("fmt ") == [0x66, 0x6d, 0x74, 0x20]
    ensures Ascii("data") == [0x64, 0x61, 0x74, 0x61]
  {
  }

  /** `setUint16(off, x, true)`: x reduced mod 2^16, low byte first. */
  function U16LE(x: int): (r: seq<Byte>)
    ensures |r| == 2
  {
    var u := x % TwoTo16;
    [u % 256, u / 256]
  }

  /** `setUint32(off, x, true)`: x reduced mod 2^32, low byte first. */
  function U32LE(x: int): (r: seq<Byte>)
    ensures |r| == 4
  {
    var u := x % TwoTo32;
    [u % 256, (u / 0x100) % 256, (u / 0x1_0000) % 256, u / 0x100_0000]
  }

  /** `setInt16(off, x, true)`: two's complement, low byte first. */
  function I16LE(x: Int16): (r: seq<Byte>)
    ensures |r| == 2
  {
    U16LE(x)
  }

  /** The bytes of `buf` with `bytes` written at `off`; nothing else changes. */
  function Put(buf: seq<Byte>, off: nat, bytes: seq<Byte>): (r: seq<Byte>)
    requires off + |bytes| <= |buf|
    ensures |r| == |buf|
  {
    seq(|buf|, k requires 0 <= k < |buf| => if off <= k < off + |bytes| then bytes[k - off] else buf[k])
  }

  /** Writing right after an already-written prefix extends it. */
  lemma PutAppends(buf: seq<Byte>, written: seq<Byte>, bytes: seq<Byte>)
    requires |written| + |bytes| <= HeaderSize <= |buf| && buf[..|written|] == written
    ensures Put(buf, |written|, bytes)[..|written| + |bytes|] == written + bytes
    ensures Put(buf, |written|, bytes)[HeaderSize..] == buf[HeaderSize..]
  {
    var r := Put(buf, |written|, bytes);
    forall k | 0 <= k < |written| ensures r[k] == written[k] {
      assert buf[..|written|][k] == buf[k];
    }
  }

  /** The header as a byte string, fields in offset order. */
  function WavHeader(n: nat, sampleRate: int): (r: seq<Byte>)
  {
    Ascii("RIFF") + U32LE(36 + n * 2) + Ascii("WAVE")
    + Ascii("fmt ") + U32LE(16) + U16LE(1) + U16LE(1) + U32LE(sampleRate) + U32LE(sampleRate * 2) + U16LE(2) + U16LE(16)
    + Ascii("data") + U32LE(n * 2)
  }

  // ---------- Reading the same layout back ----------

  function ReadU16LE(buf: seq<Byte>, off: nat): (r: int)
    requires off + 2 <= |buf|
    ensures 0 <= r < TwoTo16
  {
    buf[off] as int + 0x100 * buf[off + 1] as int
  }

  function ReadU32LE(buf: seq<Byte>, off: nat): (r: int)
    requires off + 4 <= |buf|
    ensures 0 <= r < TwoTo32
  {
    buf[off] as int + 0x100 * buf[off + 1] as int + 0x1_0000 * buf[off + 2] as int + 0x100_0000 * buf[off + 3] as int
  }

  function ReadI16LE(buf: seq<Byte>, off: nat): (r: Int16)
    requires off + 2 <= |buf|
  {
    var u := ReadU16LE(buf, off);
    if u < 0x8000 then u else u - TwoTo16
  }

  /** The header fields a WAV reader takes from the first 44 bytes. */
  datatype WavInfo = WavInfo(
    riffSize: int, fmtSize: int, format: int, channels: int, sampleRate: int,
    byteRate: int, blockAlign: int, bitsPerSample: int, dataSize: int)

  /** The header fields, or None when the input is too short or a chunk tag
      is not where the canonical layout puts it. */
  function ReadHeader(buf: seq<Byte>): (r: Option<WavInfo>)
    ensures r.Some? <==>
      (|buf| >= HeaderSize && buf[0..4] == Ascii("RIFF") && buf[8..12] == Ascii("WAVE")
       && buf[12..16] == Ascii("fmt ") && buf[36..40] == Ascii("data"))
  {
    if |buf| < HeaderSize || buf[0..4] != Ascii("RIFF") || buf[8..12] != Ascii("WAVE")
       || buf[12..16] != Ascii("fmt ") || buf[36..40] != Ascii("data")
    then None
    else Some(WavInfo(
      ReadU32LE(buf, 4), ReadU32LE(buf, 16), ReadU16LE(buf, 20), ReadU16LE(buf, 22), ReadU32LE(buf, 24),
      ReadU32LE(buf, 28), ReadU16LE(buf, 32), ReadU16LE(buf, 34), ReadU32LE(buf, 40)))
  }

  lemma U16RoundTrip(x: int)
    ensures ReadU16LE(U16LE(x), 0) == x % TwoTo16
  {
  }

  lemma U32RoundTrip(x: int)
    ensures ReadU32LE(U32LE(x), 0) == x % TwoTo32
  {
    var u := x % TwoTo32;
    var q1 := u / 0x100;
    var q2 := q1 / 0x100;
    var q3 := q2 / 0x100;
    assert u == u % 256 + 0x100 * q1;
    assert q1 == q1 % 256 + 0x100 * q2;
    assert q2 == q2 % 256 + 0x100 * q3;
    assert u / 0x1_0000 == q2 && u / 0x100_0000 == q3;
  }

  /** A 16-bit sample reads back as itself. */
  lemma I16RoundTrip(x: Int16)
    ensures ReadI16LE(I16LE(x), 0) == x
  {
    U16RoundTrip(x);
  }

  /** Every field of the written header reads back at its offset, each
      reduced to its width. */
  lemma HeaderRoundTrip(n: nat, sampleRate: int)
    ensures |WavHeader(n, sampleRate)| == HeaderSize
    ensures ReadHeader(WavHeader(n, sampleRate)) == Some(WavInfo(
      (36 + 2 * n) % TwoTo32, 16, 1, 1, sampleRate % TwoTo32,
      (2 * sampleRate) % TwoTo32, 2, 16, (2 * n) % TwoTo32))
  {
    var h := WavHeader(n, sampleRate);
    ReadAt32(h, 4, 36 + n * 2);
    ReadAt32(h, 16, 16);
    ReadAt16(h, 20, 1);
    ReadAt16(h, 22, 1);
    ReadAt32(h, 24, sampleRate);
    ReadAt32(h, 28, sampleRate * 2);
    ReadAt16(h, 32, 2);
    ReadAt16(h, 34, 16);
    ReadAt32(h, 40, n * 2);
    assert h[0..4] == Ascii("RIFF");
    assert h[8..12] == Ascii("WAVE");
    assert h[12..16] == Ascii("fmt ");
    assert h[36..40] == Ascii("data");
  }

  /** The written header carries the chunk tags at offsets 0, 8, 12 and 36. */
  lemma HeaderTags(n: nat, sampleRate: int)
    ensures |WavHeader(n, sampleRate)| == HeaderSize
    ensures WavHeader(n, sampleRate)[0..4] == [0x52, 0x49, 0x46, 0x46]
    ensures WavHeader(n, sampleRate)[8..12] == [0x57, 0x41, 0x56, 0x45]
    ensures WavHeader(n, sampleRate)[12..16] == [0x66, 0x6d, 0x74, 0x20]
    ensures WavHeader(n, sampleRate)[36..40] == [0x64, 0x61, 0x74, 0x61]
  {
    var h := WavHeader(n, sampleRate);
    ChunkTags();
    assert h[0..4] == Ascii("RIFF");
    assert h[8..12] == Ascii("WAVE");
    assert h[12..16] == Ascii("fmt ");
    assert h[36..40] == Ascii("data");
  }

  lemma ReadAt16(buf: seq<Byte>, off: nat, x: int)
    requires off + 2 <= |buf| && buf[off..off + 2] == U16LE(x)
    ensures ReadU16LE(buf, off) == x % TwoTo16
  {
    U16RoundTrip(x);
    assert buf[off] == U16LE(x)[0] && buf[off + 1] == U16LE(x)[1] by {
      assert buf[off..off + 2][0] == buf[off] && buf[off..off + 2][1] == buf[off + 1];
    }
  }

  lemma ReadAt32(buf: seq<Byte>, off: nat, x: int)
    requires off + 4 <= |buf| && buf[off..off + 4] == U32LE(x)
    ensures ReadU32LE(buf, off) == x % TwoTo32
  {
    U32RoundTrip(x);
    var w := buf[off..off + 4];
    assert w[0] == buf[off] && w[1] == buf[off + 1] && w[2] == buf[off + 2] && w[3] == buf[off + 3];
  }

  /** When the rate fits, the byte rate is the sample rate times the block
      alignment, and the two sizes are the file length less 8 and less 44. */
  lemma HeaderConsistent(n: nat, sampleRate: int)
    requires 0 <= sampleRate && 2 * sampleRate < TwoTo32 && 36 + 2 * n < TwoTo32
    ensures var info := ReadHeader(WavHeader(n, sampleRate)).value;
      && info.byteRate == info.sampleRate * info.blockAlign
      && info.blockAlign == info.channels * info.bitsPerSample / 8
      && info.riffSize == HeaderSize + 2 * n - 8
      && info.dataSize == 2 * n
      && info.sampleRate == sampleRate
  {
    HeaderRoundTrip(n, sampleRate);
    var info := ReadHeader(WavHeader(n, sampleRate)).value;
    SmallMod(36 + 2 * n);
    SmallMod(2 * n);
    SmallMod(sampleRate);
    SmallMod(2 * sampleRate);
    assert info.sampleRate == sampleRate && info.blockAlign == 2;
    assert info.byteRate == 2 * sampleRate;
  }

  /** At the default rate of 48000 the header announces 48000 samples and
      96000 bytes per second. */
  lemma DefaultRateHeader(n: nat)
    requires 36 + 2 * n < TwoTo32
    ensures var info := ReadHeader(WavHeader(n, DefaultSampleRate)).value;
      info.sampleRate == 48000 && info.byteRate == 96000
  {
    HeaderConsistent(n, DefaultSampleRate);
  }

  lemma SmallMod(x: int)
    requires 0 <= x < TwoTo32
    ensures x % TwoTo32 == x
  {
  }

  // ---------- The writer ----------

  /** The thirteen header writes of `samplesToWavBlob`, each at the offset
      the canonical layout gives its field; the bytes after the header are
      left as they were. */
  method WriteHeader(buf0: seq<Byte>, n: nat, sampleRate: int) returns (buf: seq<Byte>)
    requires |buf0| >= HeaderSize
    ensures |buf| == |buf0|
    ensures buf[..HeaderSize] == WavHeader(n, sampleRate)
    ensures buf[HeaderSize..] == buf0[HeaderSize..]
  {
    buf := buf0;
    // `written` is the header prefix laid down so far.
    ghost var written: seq<Byte> := Ascii("RIFF");
    PutAppends(buf, [], written);
    buf := Put(buf, 0, Ascii("RIFF"));
    PutAppends(buf, written, U32LE(36 + n * 2));
    buf, written := Put(buf, 4, U32LE(36 + n * 2)), written + U32LE(36 + n * 2);
    PutAppends(buf, written, Ascii("WAVE"));
    buf, written := Put(buf, 8, Ascii("WAVE")), written + Ascii("WAVE");
    PutAppends(buf, written, Ascii("fmt "));
    buf, written := Put(buf, 12, Ascii("fmt ")), written + Ascii("fmt ");
    PutAppends(buf, written, U32LE(16));
    buf, written := Put(buf, 16, U32LE(16)), written + U32LE(16);
    PutAppends(buf, written, U16LE(1));
    buf, written := Put(buf, 20, U16LE(1)), written + U16LE(1);
    PutAppends(buf, written, U16LE(1));
    buf, written := Put(buf, 22, U16LE(1)), written + U16LE(1);
    PutAppends(buf, written, U32LE(sampleRate));
    buf, written := Put(buf, 24, U32LE(sampleRate)), written + U32LE(sampleRate);
    PutAppends(buf, written, U32LE(sampleRate * 2));
    buf, written := Put(buf, 28, U32LE(sampleRate * 2)), written + U32LE(sampleRate * 2);
    PutAppends(buf, written, U16LE(2));
    buf, written := Put(buf, 32, U16LE(2)), written + U16LE(2);
    PutAppends(buf, written, U16LE(16));
    buf, written := Put(buf, 34, U16LE(16)), written + U16LE(16);
    PutAppends(buf, written, Ascii("data"));
    buf, written := Put(buf, 36, Ascii("data")), written + Ascii("data");
    PutAppends(buf, written, U32LE(n * 2));
    buf, written := Put(buf, 40, U32LE(n * 2)), written + U32LE(n * 2);
    assert written == WavHeader(n, sampleRate);
  }

  /** Writing a sample after the header keeps the header and every other
      sample's bytes, and reads back as the sample. */
  lemma PutSample(buf: seq<Byte>, off: nat, x: Int16)
    requires HeaderSize <= off && off + 2 <= |buf|
    ensures Put(buf, off, I16LE(x))[..HeaderSize] == buf[..HeaderSize]
    ensures ReadI16LE(Put(buf, off, I16LE(x)), off) == x
    ensures forall k :: 0 <= k < |buf| && (k < off || off + 2 <= k) ==> Put(buf, off, I16LE(x))[k] == buf[k]
  {
    I16RoundTrip(x);
  }

  /** `samplesToWavBlob` on samples already converted to 16-bit integers:
      a zeroed buffer of 44 + 2n bytes, the header fields written at their
      offsets, then sample i at offset 44 + 2i. */
  method SamplesToWav(samples: seq<Int16>, sampleRate: int) returns (wav: seq<Byte>)
    ensures |wav| == HeaderSize + 2 * |samples|
    ensures wav[..HeaderSize] == WavHeader(|samples|, sampleRate)
    ensures forall i :: 0 <= i < |samples| ==> ReadI16LE(wav, HeaderSize + 2 * i) == samples[i]
  {
    var n := |samples|;
    wav := WriteHeader(seq(HeaderSize + 2 * n, _ => 0), n, sampleRate);
    var offset := HeaderSize;
    var i := 0;
    while i < n
      invariant 0 <= i <= n && offset == HeaderSize + 2 * i
      invariant |wav| == HeaderSize + 2 * n
      invariant wav[..HeaderSize] == WavHeader(n, sampleRate)
      invariant forall j :: 0 <= j < i ==> ReadI16LE(wav, HeaderSize + 2 * j) == samples[j]
    {
      PutSample(wav, offset, samples[i]);
      wav := Put(wav, offset, I16LE(samples[i]));
      offset := offset + 2;
      i := i + 1;
    }
  }
}
