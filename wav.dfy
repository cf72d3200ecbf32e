/** The 44-byte RIFF/WAVE header `wav_hdr_t` and the framing of a sample
    buffer behind it, as done when a speech segment is handed on and when
    synthesized speech is returned. The header struct is packed (every field
    sits on its natural alignment) and is copied byte by byte from memory, so
    its image is the little-endian encoding of its fields in declaration order. */
module Wav {
  import opened Words

  const HeaderSize: nat := 44
  /** Format tag 3 is WAVE_FORMAT_IEEE_FLOAT in the Microsoft RIFF WAVE format. */
  const FormatIeeeFloat: Word16 := 3
  /** Bytes in one sample: sizeof(float). */
  const SampleBytes: nat := 4

  /** Little-endian image of a 16-bit field. */
  function LE16(x: Word16): (b: seq<Byte>)
    ensures |b| == 2
  {
    [x % 0x100, x / 0x100]
  }

  /** Little-endian image of a 32-bit field. */
  function LE32(x: Word32): (b: seq<Byte>)
    ensures |b| == 4
  {
    var x1 := x / 0x100;
    var x2 := x1 / 0x100;
    [x % 0x100, x1 % 0x100, x2 % 0x100, x2 / 0x100]
  }

  /** Reads the 16-bit little-endian field at `off`. */
  function U16At(b: seq<Byte>, off: nat): (x: Word16)
    requires off + 2 <= |b|
  {
    b[off] as int + 0x100 * b[off + 1] as int
  }

  /** Reads the 32-bit little-endian field at `off`. */
  function U32At(b: seq<Byte>, off: nat): (x: Word32)
    requires off + 4 <= |b|
  {
    b[off] as int + 0x100 * (b[off + 1] as int + 0x100 * (b[off + 2] as int + 0x100 * b[off + 3] as int))
  }

  lemma LE16RoundTrip(x: Word16)
    ensures U16At(LE16(x), 0) == x
  {
  }

  lemma LE32RoundTrip(x: Word32)
    ensures U32At(LE32(x), 0) == x
  {
    var x1 := x / 0x100;
    var x2 := x1 / 0x100;
    assert x2 == x2 % 0x100 + 0x100 * (x2 / 0x100);
    assert x1 == x1 % 0x100 + 0x100 * x2;
    assert x == x % 0x100 + 0x100 * x1;
  }

  /** The bytes of a four-letter ASCII chunk identifier. */
  function Tag(s: string): (b: seq<Byte>)
    requires |s| == 4 && forall i :: 0 <= i < 4 ==> s[i] as int < 0x100
    ensures |b| == 4 && forall i :: 0 <= i < 4 ==> b[i] == s[i] as int
  {
    [s[0] as int, s[1] as int, s[2] as int, s[3] as int]
  }

  /** The numeric fields of wav_hdr_t, in declaration order. The four chunk
      identifiers "RIFF", "WAVE", "fmt " and "data" are fixed by the struct's
      initialisers and appear only in its byte image. */
  datatype WavHeader = WavHeader(
    chunkSize: Word32,
    subchunk1Size: Word32,
    audioFormat: Word16,
    numOfChan: Word16,
    samplesPerSec: Word32,
    bytesPerSec: Word32,
    blockAlign: Word16,
    bitsPerSample: Word16,
    subchunk2Size: Word32)

  /** The header written for `numBytes` bytes of samples at `rate` samples per
      second: the struct's initialisers plus the four assignments made before
      copying. Every size is stored into a uint32_t, hence reduced modulo 2^32;
      `rate % Two32` is also the conversion of a signed rate to uint32_t. */
  function NewHeader(numBytes: nat, rate: int): (h: WavHeader)
    ensures h.chunkSize == (numBytes + 36) % Two32 && h.subchunk2Size == numBytes % Two32
    ensures numBytes + 36 < Two32 ==> h.chunkSize == numBytes + 36 && h.subchunk2Size == numBytes
    ensures h.samplesPerSec == rate % Two32 && h.bytesPerSec == (SampleBytes * rate) % Two32
    ensures 0 <= rate && SampleBytes * rate < Two32 ==> h.samplesPerSec == rate && h.bytesPerSec == SampleBytes * rate
    ensures h.subchunk1Size == 16 && h.audioFormat == FormatIeeeFloat && h.numOfChan == 1
    ensures h.blockAlign == 2 && h.bitsPerSample == 8 * SampleBytes
  {
    WavHeader(
      chunkSize := (numBytes + 36) % Two32,
      subchunk1Size := 16,
      audioFormat := FormatIeeeFloat,
      numOfChan := 1,
      samplesPerSec := rate % Two32,
      bytesPerSec := (SampleBytes * rate) % Two32,
      blockAlign := 2,
      bitsPerSample := 8 * SampleBytes,
      subchunk2Size := numBytes % Two32)
  }

  /** Byte `i` of the memory image of wav_hdr_t, field by field. */
  function HeaderByte(h: WavHeader, i: nat): Byte
    requires i < HeaderSize
  {
    if i < 4 then Tag("RIFF")[i]
    else if i < 8 then LE32(h.chunkSize)[i - 4]
    else if i < 12 then Tag("WAVE")[i - 8]
    else if i < 16 then Tag("fmt ")[i - 12]
    else if i < 20 then LE32(h.subchunk1Size)[i - 16]
    else if i < 22 then LE16(h.audioFormat)[i - 20]
    else if i < 24 then LE16(h.numOfChan)[i - 22]
    else if i < 28 then LE32(h.samplesPerSec)[i - 24]
    else if i < 32 then LE32(h.bytesPerSec)[i - 28]
    else if i < 34 then LE16(h.blockAlign)[i - 32]
    else if i < 36 then LE16(h.bitsPerSample)[i - 34]
    else if i < 40 then Tag("data")[i - 36]
    else LE32(h.subchunk2Size)[i - 40]
  }

  /** The memory image of wav_hdr_t. */
  function Serialize(h: WavHeader): (b: seq<Byte>)
    ensures |b| == HeaderSize
  {
    seq(HeaderSize, i requires 0 <= i < HeaderSize => HeaderByte(h, i))
  }

  /** Reads the numeric fields back from a header image. */
  function Parse(b: seq<Byte>): WavHeader
    requires |b| >= HeaderSize
  {
    WavHeader(U32At(b, 4), U32At(b, 16), U16At(b, 20), U16At(b, 22), U32At(b, 24),
              U32At(b, 28), U16At(b, 32), U16At(b, 34), U32At(b, 40))
  }

  /** Whether a byte image carries the four chunk identifiers at offsets 0, 8, 12 and 36. */
  predicate HasChunkIds(b: seq<Byte>)
    requires |b| >= HeaderSize
  {
    forall i :: 0 <= i < 4 ==>
      b[i] == Tag("RIFF")[i] && b[8 + i] == Tag("WAVE")[i] && b[12 + i] == Tag("fmt ")[i] && b[36 + i] == Tag("data")[i]
  }

  /** The image carries the chunk identifiers. */
  lemma SerializeChunkIds(h: WavHeader)
    ensures HasChunkIds(Serialize(h))
  {
  }

  /** Parse inverts Serialize. */
  lemma SerializeRoundTrip(h: WavHeader)
    ensures Parse(Serialize(h)) == h
    ensures HasChunkIds(Serialize(h))
  {
    SerializeChunkIds(h);
    LE32RoundTrip(h.chunkSize);
    LE32RoundTrip(h.subchunk1Size);
    LE16RoundTrip(h.audioFormat);
    LE16RoundTrip(h.numOfChan);
    LE32RoundTrip(h.samplesPerSec);
    LE32RoundTrip(h.bytesPerSec);
    LE16RoundTrip(h.blockAlign);
    LE16RoundTrip(h.bitsPerSample);
    LE32RoundTrip(h.subchunk2Size);
  }

  /** The memory image of the samples, as memcpy copies it. */
  function Payload(samples: seq<Word32>): (b: seq<Byte>)
    ensures |b| == SampleBytes * |samples|
  {
    if samples == [] then [] else LE32(samples[0]) + Payload(samples[1..])
  }

  /** Reads samples back from their memory image (a trailing partial word is ignored). */
  function Samples(b: seq<Byte>): seq<Word32>
  {
    if |b| < 4 then [] else [U32At(b, 0)] + Samples(b[4..])
  }

  /** Samples inverts Payload: the payload carries exactly the samples. */
  lemma {:induction false} PayloadRoundTrip(samples: seq<Word32>)
    ensures Samples(Payload(samples)) == samples
  {
    if samples != [] {
      var p := Payload(samples);
      LE32RoundTrip(samples[0]);
      assert p[..4] == LE32(samples[0]);
      assert p[4..] == Payload(samples[1..]);
      PayloadRoundTrip(samples[1..]);
    }
  }

  lemma {:induction false} PayloadAppend(a: seq<Word32>, b: seq<Word32>)
    ensures Payload(a + b) == Payload(a) + Payload(b)
  {
    if a != [] {
      calc {
        Payload(a + b);
        LE32((a + b)[0]) + Payload((a + b)[1..]);
        { assert (a + b)[0] == a[0]; assert (a + b)[1..] == a[1..] + b; }
        LE32(a[0]) + Payload(a[1..] + b);
        { PayloadAppend(a[1..], b); }
        LE32(a[0]) + (Payload(a[1..]) + Payload(b));
        Payload(a) + Payload(b);
      }
    } else {
      assert a + b == b;
    }
  }

  /** A WAV buffer: header for the samples' byte count, then the samples. */
  function WavFile(samples: seq<Word32>, rate: int): (b: seq<Byte>)
    ensures |b| == HeaderSize + SampleBytes * |samples|
  {
    Serialize(NewHeader(SampleBytes * |samples|, rate)) + Payload(samples)
  }

  /** The header fields are read from the first 44 bytes only. */
  lemma ParsePrefix(header: seq<Byte>, rest: seq<Byte>)
    requires |header| == HeaderSize
    ensures Parse(header + rest) == Parse(header)
    ensures HasChunkIds(header + rest) == HasChunkIds(header)
  {
    var b := header + rest;
    assert forall i :: 0 <= i < HeaderSize ==> b[i] == header[i];
  }

  /** What a reader of a framed buffer of N samples finds: length 44 + 4N, the
      chunk identifiers, ChunkSize 4N + 36 and Subchunk2Size 4N (modulo 2^32),
      IEEE-float mono with 32-bit samples at the given rate, and the samples
      as payload. */
  lemma WavFileLayout(samples: seq<Word32>, rate: int)
    ensures |WavFile(samples, rate)| == HeaderSize + 4 * |samples|
    ensures HasChunkIds(WavFile(samples, rate))
    ensures var h := Parse(WavFile(samples, rate));
      && h.chunkSize == (4 * |samples| + 36) % Two32
      && h.subchunk2Size == (4 * |samples|) % Two32
      && h.subchunk1Size == 16 && h.audioFormat == FormatIeeeFloat && h.numOfChan == 1
      && h.samplesPerSec == rate % Two32 && h.bytesPerSec == (4 * rate) % Two32
      && h.blockAlign == 2 && h.bitsPerSample == 32
    ensures Samples(WavFile(samples, rate)[HeaderSize..]) == samples
  {
    WavFileHeader(samples, rate);
    WavFilePayload(samples, rate);
  }

  lemma WavFileHeader(samples: seq<Word32>, rate: int)
    ensures Parse(WavFile(samples, rate)) == NewHeader(SampleBytes * |samples|, rate)
    ensures HasChunkIds(WavFile(samples, rate))
  {
    var h := NewHeader(SampleBytes * |samples|, rate);
    SerializeRoundTrip(h);
    ParsePrefix(Serialize(h), Payload(samples));
  }

  lemma WavFilePayload(samples: seq<Word32>, rate: int)
    ensures Samples(WavFile(samples, rate)[HeaderSize..]) == samples
  {
    var h := NewHeader(SampleBytes * |samples|, rate);
    assert WavFile(samples, rate)[HeaderSize..] == Payload(samples);
    PayloadRoundTrip(samples);
  }

  /** Frames `samples` as a WAV buffer: a buffer of header size plus payload
      size is allocated, the header image is copied byte by byte, then the
      sample image is copied behind it. */
  method FrameWav(samples: seq<Word32>, rate: int) returns (speech: seq<Byte>)
    ensures speech == WavFile(samples, rate)
  {
    var numBytes := SampleBytes * |samples|;
    var buf := new Byte[numBytes + HeaderSize];
    var header := Serialize(NewHeader(numBytes, rate));
    for i := 0 to HeaderSize
      invariant forall j :: 0 <= j < i ==> buf[j] == header[j]
    {
      buf[i] := header[i];
    }
    var image := Payload(samples);
    for i := 0 to numBytes
      invariant forall j :: 0 <= j < HeaderSize ==> buf[j] == header[j]
      invariant forall j :: 0 <= j < i ==> buf[HeaderSize + j] == image[j]
    {
      buf[HeaderSize + i] := image[i];
    }
    speech := buf[..];
    assert speech == header + image;
  }
}
