/** The two RIFF/WAVE encoders of the speech service: a 44-byte header with
    little-endian fields followed by 16-bit PCM samples, written into a
    zero-filled buffer through `DataView` setters. Samples arrive already
    quantised to 16 bits. */
module Wav {
  import opened Common

  type int16 = x: int | -32768 <= x < 32768

  const TwoTo16: int := 65536
  const TwoTo32: int := 4294967296

  // ---------------------------------------------------------------------------
  // byte encodings

  /** `setUint16(off, v, true)`: `v` reduced modulo 2^16, low byte first.
      A negative `v`, as `setInt16` writes it, becomes its two's
      complement. */
  function U16(v: int): (b: seq<byte>)
    ensures |b| == 2
  {
    var u := v % TwoTo16;
    [u % 256, u / 256]
  }

  /** `setUint32(off, v, true)`: `v` reduced modulo 2^32, low byte first. */
  function U32(v: int): (b: seq<byte>)
    ensures |b| == 4
  {
    var u := v % TwoTo32;
    [u % 256, (u / 256) % 256, (u / 65536) % 256, u / 16777216]
  }

  function ReadU16(b: seq<byte>, off: nat): int
    requires off + 2 <= |b|
  {
    b[off] as int + 256 * (b[off + 1] as int)
  }

  function ReadU32(b: seq<byte>, off: nat): int
    requires off + 4 <= |b|
  {
    b[off] as int + 256 * (b[off + 1] as int) + 65536 * (b[off + 2] as int) + 16777216 * (b[off + 3] as int)
  }

  /** `getInt16(off, true)`. */
  function ReadI16(b: seq<byte>, off: nat): int
    requires off + 2 <= |b|
  {
    var u := ReadU16(b, off);
    if u >= 32768 then u - TwoTo16 else u
  }

  lemma U16RoundTrip(v: int)
    ensures ReadU16(U16(v), 0) == v % TwoTo16
  {
  }

  lemma U32RoundTrip(v: int)
    ensures ReadU32(U32(v), 0) == v % TwoTo32
  {
    var u := v % TwoTo32;
    var q1 := u / 256;
    var q2 := u / 65536;
    assert q2 == q1 / 256;
    assert u == u % 256 + 256 * q1;
    assert q1 == q1 % 256 + 256 * q2;
    assert q2 == q2 % 256 + 256 * (u / 16777216);
  }

  /** A 16-bit sample reads back as itself. */
  lemma I16RoundTrip(s: int16)
    ensures ReadI16(U16(s), 0) == s
  {
    U16RoundTrip(s);
  }

  // ---------------------------------------------------------------------------
  // the file image

  /** The canonical header for `dataSize` bytes of samples. */
  function Header(dataSize: int, channels: int, sampleRate: int): (h: seq<byte>)
    ensures |h| == 44
  {
    Bytes("RIFF") + U32(36 + dataSize) + Bytes("WAVE") + Bytes("fmt ") + U32(16) +
    U16(1) + U16(channels) + U32(sampleRate) + U32(sampleRate * channels * 2) + U16(channels * 2) + U16(16) +
    Bytes("data") + U32(dataSize)
  }

  /** Where each header field sits. */
  lemma HeaderSlices(dataSize: int, channels: int, sampleRate: int)
    ensures var h := Header(dataSize, channels, sampleRate);
            h[0..4] == Bytes("RIFF") && h[4..8] == U32(36 + dataSize) && h[8..12] == Bytes("WAVE") &&
            h[12..16] == Bytes("fmt ") && h[16..20] == U32(16) && h[20..22] == U16(1) &&
            h[22..24] == U16(channels) && h[24..28] == U32(sampleRate) && h[28..32] == U32(sampleRate * channels * 2) &&
            h[32..34] == U16(channels * 2) && h[34..36] == U16(16) && h[36..40] == Bytes("data") && h[40..44] == U32(dataSize)
  {
    var a := Bytes("RIFF") + U32(36 + dataSize) + Bytes("WAVE") + Bytes("fmt ") + U32(16);
    var b := U16(1) + U16(channels) + U32(sampleRate) + U32(sampleRate * channels * 2) + U16(channels * 2) + U16(16);
    var c := Bytes("data") + U32(dataSize);
    var h := Header(dataSize, channels, sampleRate);
    assert h == a + b + c;
    assert |a| == 20 && |b| == 16 && |c| == 8;
    FirstPartSlices(dataSize);
    SecondPartSlices(channels, sampleRate);
    assert h[0..20] == a && h[20..36] == b && h[36..44] == c;
    assert c[0..4] == Bytes("data") && c[4..8] == U32(dataSize);
    SliceOfSlice(h, 0, 20);
    SliceOfSlice(h, 20, 36);
    SliceOfSlice(h, 36, 44);
  }

  /** A slice of the slice `s[lo..hi]` is a slice of `s`. */
  lemma SliceOfSlice(s: seq<byte>, lo: nat, hi: nat)
    requires lo <= hi <= |s|
    ensures forall i, j :: 0 <= i <= j <= hi - lo ==> s[lo..hi][i..j] == s[lo + i..lo + j]
  {
    forall i, j | 0 <= i <= j <= hi - lo ensures s[lo..hi][i..j] == s[lo + i..lo + j] {
      assert forall k :: 0 <= k < j - i ==> s[lo..hi][i..j][k] == s[lo + i + k];
    }
  }

  lemma FirstPartSlices(dataSize: int)
    ensures var a := Bytes("RIFF") + U32(36 + dataSize) + Bytes("WAVE") + Bytes("fmt ") + U32(16);
            a[0..4] == Bytes("RIFF") && a[4..8] == U32(36 + dataSize) && a[8..12] == Bytes("WAVE") &&
            a[12..16] == Bytes("fmt ") && a[16..20] == U32(16)
  {
  }

  lemma SecondPartSlices(channels: int, sampleRate: int)
    ensures var b := U16(1) + U16(channels) + U32(sampleRate) + U32(sampleRate * channels * 2) + U16(channels * 2) + U16(16);
            b[0..2] == U16(1) && b[2..4] == U16(channels) && b[4..8] == U32(sampleRate) &&
            b[8..12] == U32(sampleRate * channels * 2) && b[12..14] == U16(channels * 2) && b[14..16] == U16(16)
  {
  }

  /** The samples, two bytes each, in order. */
  function Pcm(s: seq<int16>): (b: seq<byte>)
    ensures |b| == 2 * |s|
    decreases |s|
  {
    if s == [] then [] else Pcm(s[..|s| - 1]) + U16(s[|s| - 1])
  }

  lemma {:induction false} PcmAt(s: seq<int16>, k: nat)
    requires k < |s|
    ensures Pcm(s)[2 * k] == U16(s[k])[0] && Pcm(s)[2 * k + 1] == U16(s[k])[1]
    decreases |s|
  {
    var init := s[..|s| - 1];
    if k < |s| - 1 {
      PcmAt(init, k);
      assert init[k] == s[k];
    }
  }

  /** The file image for the samples of all channels, interleaved. */
  function Wav(samples: seq<int16>, channels: int, sampleRate: int): (w: seq<byte>)
    ensures |w| == 44 + 2 * |samples|
  {
    Header(2 * |samples|, channels, sampleRate) + Pcm(samples)
  }

  /** What a reader finds in a file image: the four tags, the two size
      fields (the RIFF size is the length minus 8, the data size the length
      minus 44, both modulo 2^32), the format fields, and every sample,
      16 bits each, from offset 44 on. */
  lemma WavLayout(samples: seq<int16>, channels: int, sampleRate: int)
    ensures var w := Wav(samples, channels, sampleRate);
            w[0..4] == Bytes("RIFF") && w[8..12] == Bytes("WAVE") && w[12..16] == Bytes("fmt ") && w[36..40] == Bytes("data") &&
            ReadU32(w, 4) == (|w| - 8) % TwoTo32 && ReadU32(w, 40) == (|w| - 44) % TwoTo32 &&
            ReadU32(w, 16) == 16 && ReadU16(w, 20) == 1 && ReadU16(w, 22) == channels % TwoTo16 &&
            ReadU32(w, 24) == sampleRate % TwoTo32 && ReadU32(w, 28) == (sampleRate * channels * 2) % TwoTo32 &&
            ReadU16(w, 32) == (channels * 2) % TwoTo16 && ReadU16(w, 34) == 16
    ensures var w := Wav(samples, channels, sampleRate);
            forall k :: 0 <= k < |samples| ==> ReadI16(w, 44 + 2 * k) == samples[k]
  {
    var n := 2 * |samples|;
    var w := Wav(samples, channels, sampleRate);
    var h := Header(n, channels, sampleRate);
    HeaderSlices(n, channels, sampleRate);
    assert w[..44] == h;
    SliceOfSlice(w, 0, 44);
    U32Field(w, 4, 36 + n);
    U32Field(w, 40, n);
    U32Field(w, 16, 16);
    U16Field(w, 20, 1);
    U16Field(w, 22, channels);
    U32Field(w, 24, sampleRate);
    U32Field(w, 28, sampleRate * channels * 2);
    U16Field(w, 32, channels * 2);
    U16Field(w, 34, 16);
    forall k | 0 <= k < |samples| ensures ReadI16(w, 44 + 2 * k) == samples[k] {
      WavSampleAt(samples, channels, sampleRate, k);
      I16RoundTrip(samples[k]);
    }
  }

  lemma U16Field(w: seq<byte>, off: nat, v: int)
    requires off + 2 <= |w| && w[off..off + 2] == U16(v)
    ensures ReadU16(w, off) == v % TwoTo16
  {
    U16RoundTrip(v);
    assert w[off] == U16(v)[0] && w[off + 1] == U16(v)[1];
  }

  lemma U32Field(w: seq<byte>, off: nat, v: int)
    requires off + 4 <= |w| && w[off..off + 4] == U32(v)
    ensures ReadU32(w, off) == v % TwoTo32
  {
    U32RoundTrip(v);
    assert w[off] == U32(v)[0] && w[off + 1] == U32(v)[1] && w[off + 2] == U32(v)[2] && w[off + 3] == U32(v)[3];
  }

  /** Sample `k` occupies bytes 44 + 2k and 44 + 2k + 1. */
  lemma WavSampleAt(samples: seq<int16>, channels: int, sampleRate: int, k: nat)
    requires k < |samples|
    ensures var w := Wav(samples, channels, sampleRate);
            w[44 + 2 * k] == U16(samples[k])[0] && w[44 + 2 * k + 1] == U16(samples[k])[1] &&
            w[44 + 2 * k..44 + 2 * k + 2] == U16(samples[k])
  {
    PcmAt(samples, k);
  }

  /** `w` has the length of an image of `samples` and holds each sample's
      two bytes at its offset. */
  ghost predicate HoldsSamples(w: seq<byte>, samples: seq<int16>) {
    |w| == 44 + 2 * |samples| &&
    forall k :: 0 <= k < |samples| ==> w[44 + 2 * k..44 + 2 * k + 2] == U16(samples[k])
  }

  /** The image starts with the header for its samples. */
  lemma WavHeader(samples: seq<int16>, channels: int, sampleRate: int)
    ensures Wav(samples, channels, sampleRate)[..44] == Header(2 * |samples|, channels, sampleRate)
  {
  }

  lemma WavHoldsSamples(samples: seq<int16>, channels: int, sampleRate: int)
    ensures HoldsSamples(Wav(samples, channels, sampleRate), samples)
  {
    forall k | 0 <= k < |samples|
      ensures Wav(samples, channels, sampleRate)[44 + 2 * k..44 + 2 * k + 2] == U16(samples[k])
    {
      WavSampleAt(samples, channels, sampleRate, k);
    }
  }

  // ---------------------------------------------------------------------------
  // the encoders

  /** `s` with `b` written over it from `off` on. */
  function Spliced(s: seq<byte>, off: nat, b: seq<byte>): (r: seq<byte>)
    requires off + |b| <= |s|
    ensures |r| == |s|
    ensures forall j :: 0 <= j < |s| ==> r[j] == if off <= j < off + |b| then b[j - off] else s[j]
  {
    s[..off] + b + s[off + |b|..]
  }

  /** `writeString(offset, string)`. */
  method WriteString(view: array<byte>, offset: nat, s: string)
    requires offset + |s| <= view.Length
    modifies view
    ensures view[..] == Spliced(old(view[..]), offset, Bytes(s))
  {
    var i := 0;
    while i < |s|
      invariant 0 <= i <= |s|
      invariant view[..] == Spliced(old(view[..]), offset, Bytes(s)[..i])
    {
      view[offset + i] := (s[i] as int) % 256;
      i := i + 1;
    }
    assert Bytes(s)[..|s|] == Bytes(s);
  }

  method SetUint16(view: array<byte>, offset: nat, v: int)
    requires offset + 2 <= view.Length
    modifies view
    ensures view[..] == Spliced(old(view[..]), offset, U16(v))
  {
    var b := U16(v);
    view[offset] := b[0];
    view[offset + 1] := b[1];
  }

  method SetUint32(view: array<byte>, offset: nat, v: int)
    requires offset + 4 <= view.Length
    modifies view
    ensures view[..] == Spliced(old(view[..]), offset, U32(v))
  {
    var b := U32(v);
    view[offset] := b[0];
    view[offset + 1] := b[1];
    view[offset + 2] := b[2];
    view[offset + 3] := b[3];
  }

  /** The header writes of both encoders; `dataSize` is the byte count of
      the samples. Beyond the header the buffer is untouched. */
  method WriteHeader(view: array<byte>, dataSize: int, channels: int, sampleRate: int)
    requires 44 <= view.Length
    modifies view
    ensures view[..44] == Header(dataSize, channels, sampleRate)
    ensures view[44..] == old(view[44..])
  {
    ghost var h := Header(dataSize, channels, sampleRate);
    HeaderSlices(dataSize, channels, sampleRate);
    ghost var before := view[..];
    WriteString(view, 0, "RIFF");
    ExtendPrefix(before, 0, Bytes("RIFF"), h);
    before := view[..];
    SetUint32(view, 4, 36 + dataSize);
    ExtendPrefix(before, 4, U32(36 + dataSize), h);
    before := view[..];
    WriteString(view, 8, "WAVE");
    ExtendPrefix(before, 8, Bytes("WAVE"), h);
    before := view[..];
    WriteString(view, 12, "fmt ");
    ExtendPrefix(before, 12, Bytes("fmt "), h);
    before := view[..];
    SetUint32(view, 16, 16);
    ExtendPrefix(before, 16, U32(16), h);
    before := view[..];
    SetUint16(view, 20, 1);
    ExtendPrefix(before, 20, U16(1), h);
    before := view[..];
    SetUint16(view, 22, channels);
    ExtendPrefix(before, 22, U16(channels), h);
    before := view[..];
    SetUint32(view, 24, sampleRate);
    ExtendPrefix(before, 24, U32(sampleRate), h);
    before := view[..];
    SetUint32(view, 28, sampleRate * channels * 2);
    ExtendPrefix(before, 28, U32(sampleRate * channels * 2), h);
    before := view[..];
    SetUint16(view, 32, channels * 2);
    ExtendPrefix(before, 32, U16(channels * 2), h);
    before := view[..];
    SetUint16(view, 34, 16);
    ExtendPrefix(before, 34, U16(16), h);
    before := view[..];
    WriteString(view, 36, "data");
    ExtendPrefix(before, 36, Bytes("data"), h);
    before := view[..];
    SetUint32(view, 40, dataSize);
    ExtendPrefix(before, 40, U32(dataSize), h);
  }

  /** Writing the next piece of `w` over a buffer that holds the pieces
      before it extends the written prefix and keeps the rest. */
  lemma ExtendPrefix(before: seq<byte>, off: nat, b: seq<byte>, w: seq<byte>)
    requires off + |b| <= 44 <= |before| && |w| == 44
    requires before[..off] == w[..off] && w[off..off + |b|] == b
    ensures Spliced(before, off, b)[..off + |b|] == w[..off + |b|]
    ensures Spliced(before, off, b)[44..] == before[44..]
  {
    var r := Spliced(before, off, b);
    assert forall j :: 0 <= j < off ==> r[j] == before[..off][j];
    assert forall j :: off <= j < off + |b| ==> r[j] == w[off..off + |b|][j - off];
  }

  /** One sample through `setInt16(offset, sample, true)`, extending the
      written prefix of the file image `w`. */
  method WriteSample(view: array<byte>, offset: nat, sample: int16, ghost w: seq<byte>)
    requires offset + 2 <= view.Length && offset + 2 <= |w|
    requires view[..offset] == w[..offset] && w[offset..offset + 2] == U16(sample)
    modifies view
    ensures view[..offset + 2] == w[..offset + 2]
  {
    SetUint16(view, offset, sample);
    assert forall j :: 0 <= j < offset + 2 ==> view[j] == w[j];
  }

  /** The samples of all chunks in order. */
  function Concat(chunks: seq<seq<int16>>): (s: seq<int16>)
    decreases |chunks|
  {
    if chunks == [] then [] else Concat(chunks[..|chunks| - 1]) + chunks[|chunks| - 1]
  }

  /** `chunks.reduce((acc, chunk) => acc + chunk.length, 0)`: the number of
      samples over all chunks. */
  function TotalLength(chunks: seq<seq<int16>>): (n: nat)
    ensures n == |Concat(chunks)|
    decreases |chunks|
  {
    if chunks == [] then 0 else TotalLength(chunks[..|chunks| - 1]) + |chunks[|chunks| - 1]|
  }

  lemma {:induction false} ConcatPrefix(chunks: seq<seq<int16>>, c: nat)
    requires c <= |chunks|
    ensures Concat(chunks[..c]) <= Concat(chunks)
    decreases |chunks|
  {
    if c < |chunks| {
      ConcatPrefix(chunks[..|chunks| - 1], c);
      assert chunks[..|chunks| - 1][..c] == chunks[..c];
    } else {
      assert chunks[..c] == chunks;
    }
  }

  /** Sample `i` of chunk `c` is sample `|Concat(chunks[..c])| + i` of the
      whole. */
  lemma ConcatAt(chunks: seq<seq<int16>>, c: nat, i: nat)
    requires c < |chunks| && i < |chunks[c]|
    ensures |Concat(chunks[..c])| + i < |Concat(chunks)|
    ensures Concat(chunks)[|Concat(chunks[..c])| + i] == chunks[c][i]
  {
    ConcatPrefix(chunks, c + 1);
    assert chunks[..c + 1][..c] == chunks[..c];
  }

  /** `createWavBlob(chunks, sampleRate)`: one channel, the chunks one
      after another. */
  method CreateWavBlob(chunks: seq<seq<int16>>, sampleRate: int) returns (view: array<byte>)
    ensures fresh(view)
    ensures view[..] == Wav(Concat(chunks), 1, sampleRate)
  {
    var length := TotalLength(chunks);
    view := new byte[44 + 2 * length](_ => 0);
    WriteHeader(view, 2 * length, 1, sampleRate);
    WavHeader(Concat(chunks), 1, sampleRate);
    WavHoldsSamples(Concat(chunks), 1, sampleRate);
    WriteChunks(view, chunks, Wav(Concat(chunks), 1, sampleRate));
  }

  /** The outer loop of `createWavBlob`: the chunks one after another. */
  method WriteChunks(view: array<byte>, chunks: seq<seq<int16>>, ghost w: seq<byte>)
    requires HoldsSamples(w, Concat(chunks)) && view.Length == |w|
    requires view.Length == 44 + 2 * |Concat(chunks)|
    requires view[..44] == w[..44]
    modifies view
    ensures view[..] == w
  {
    var offset := 44;
    var c := 0;
    while c < |chunks|
      invariant 0 <= c <= |chunks|
      invariant offset == 44 + 2 * |Concat(chunks[..c])| <= view.Length
      invariant view[..offset] == w[..offset]
    {
      offset := WriteChunk(view, offset, chunks, c, w);
      c := c + 1;
    }
    assert chunks[..|chunks|] == chunks;
    assert view[..] == view[..offset];
  }

  /** The inner loop of `createWavBlob`: the samples of chunk `c`, one
      after another. */
  method WriteChunk(view: array<byte>, offset: nat, chunks: seq<seq<int16>>, c: nat, ghost w: seq<byte>)
    returns (next: nat)
    requires c < |chunks|
    requires HoldsSamples(w, Concat(chunks)) && view.Length == |w|
    requires offset == 44 + 2 * |Concat(chunks[..c])| <= view.Length
    requires view[..offset] == w[..offset]
    modifies view
    ensures next == 44 + 2 * |Concat(chunks[..c + 1])| <= view.Length
    ensures view[..next] == w[..next]
  {
    var chunk := chunks[c];
    next := offset;
    var i := 0;
    while i < |chunk|
      invariant 0 <= i <= |chunk|
      invariant next == 44 + 2 * (|Concat(chunks[..c])| + i) <= view.Length
      invariant view[..next] == w[..next]
    {
      ConcatAt(chunks, c, i);
      assert w[next..next + 2] == U16(Concat(chunks)[|Concat(chunks[..c])| + i]);
      WriteSample(view, next, chunk[i], w);
      next := next + 2;
      i := i + 1;
    }
    assert chunks[..c + 1][..c] == chunks[..c];
    ConcatPrefix(chunks, c + 1);
  }

  /** An `AudioBuffer`: `length` samples in each channel. */
  datatype AudioBuffer = AudioBuffer(channelData: seq<seq<int16>>, length: nat, sampleRate: int)

  predicate ValidBuffer(b: AudioBuffer) {
    forall ch :: 0 <= ch < |b.channelData| ==> |b.channelData[ch]| == b.length
  }

  /** The samples frame by frame: sample `i` of channel `ch` at position
      `i * channels + ch`. */
  function Interleave(b: AudioBuffer): (s: seq<int16>)
    requires ValidBuffer(b)
    ensures |s| == b.length * |b.channelData|
    ensures forall i, ch :: 0 <= i < b.length && 0 <= ch < |b.channelData| ==>
              FrameSlot(i, ch, |b.channelData|) < |s| && s[FrameSlot(i, ch, |b.channelData|)] == b.channelData[ch][i]
    decreases b.length
  {
    var c := |b.channelData|;
    if b.length == 0 then []
    else
      var last := b.length - 1;
      var front := AudioBuffer(seq(c, ch requires 0 <= ch < c => b.channelData[ch][..last]), last, b.sampleRate);
      var frame := seq(c, ch requires 0 <= ch < c => b.channelData[ch][last]);
      var prev := Interleave(front);
      InterleaveSnoc(b, front, frame, prev);
      prev + frame
  }

  /** The frame of the last sample of each channel, appended to the
      interleaving of the samples before it, continues the interleaving. */
  lemma InterleaveSnoc(b: AudioBuffer, front: AudioBuffer, frame: seq<int16>, prev: seq<int16>)
    requires ValidBuffer(b) && b.length > 0
    requires |front.channelData| == |b.channelData| && front.length == b.length - 1
    requires forall ch :: 0 <= ch < |b.channelData| ==> front.channelData[ch] == b.channelData[ch][..b.length - 1]
    requires |frame| == |b.channelData|
    requires forall ch :: 0 <= ch < |b.channelData| ==> frame[ch] == b.channelData[ch][b.length - 1]
    requires |prev| == front.length * |b.channelData|
    requires forall i, ch :: 0 <= i < front.length && 0 <= ch < |b.channelData| ==>
               FrameSlot(i, ch, |b.channelData|) < |prev| && prev[FrameSlot(i, ch, |b.channelData|)] == front.channelData[ch][i]
    ensures |prev + frame| == b.length * |b.channelData|
    ensures forall i, ch :: 0 <= i < b.length && 0 <= ch < |b.channelData| ==>
              FrameSlot(i, ch, |b.channelData|) < |prev + frame| &&
              (prev + frame)[FrameSlot(i, ch, |b.channelData|)] == b.channelData[ch][i]
  {
    var c := |b.channelData|;
    var last := b.length - 1;
    var s := prev + frame;
    assert last * c + c == b.length * c;
    forall i, ch | 0 <= i < b.length && 0 <= ch < c
      ensures FrameSlot(i, ch, c) < |s| && s[FrameSlot(i, ch, c)] == b.channelData[ch][i]
    {
      FrameSlotBounds(i, ch, c, b.length);
      if i < last {
        FrameSlotBounds(i, ch, c, last);
        assert front.channelData[ch][i] == b.channelData[ch][i];
      } else {
        assert FrameSlot(i, ch, c) == last * c + ch;
      }
    }
  }

  function FrameSlot(i: nat, ch: nat, channels: nat): nat {
    i * channels + ch
  }

  lemma FrameSlotBounds(i: nat, ch: nat, c: nat, length: nat)
    requires i < length && ch < c
    ensures FrameSlot(i, ch, c) < length * c
    ensures FrameSlot(i, ch, c) + 1 <= length * c
  {
    assert i * c + ch < i * c + c == (i + 1) * c;
    assert (i + 1) * c <= length * c by {
      MulMono(i + 1, length, c);
    }
  }

  lemma MulMono(a: nat, b: nat, c: nat)
    requires a <= b
    ensures a * c <= b * c
  {
  }

  /** `audioBufferToWav(buffer)`: the channels interleaved frame by frame. */
  method AudioBufferToWav(buffer: AudioBuffer) returns (view: array<byte>)
    requires ValidBuffer(buffer)
    ensures fresh(view)
    ensures view[..] == Wav(Interleave(buffer), |buffer.channelData|, buffer.sampleRate)
  {
    var length := buffer.length;
    var numberOfChannels := |buffer.channelData|;
    ghost var samples := Interleave(buffer);
    ghost var w := Wav(samples, numberOfChannels, buffer.sampleRate);
    view := new byte[44 + length * numberOfChannels * 2](_ => 0);
    WriteHeader(view, length * numberOfChannels * 2, numberOfChannels, buffer.sampleRate);
    assert view[..44] == w[..44];
    WavHoldsSamples(samples, numberOfChannels, buffer.sampleRate);
    FrameSlotsFill(length, numberOfChannels);
    WriteFrames(view, buffer, w);
  }

  /** The outer loop of `audioBufferToWav`: frame after frame. */
  method WriteFrames(view: array<byte>, buffer: AudioBuffer, ghost w: seq<byte>)
    requires ValidBuffer(buffer)
    requires HoldsSamples(w, Interleave(buffer)) && view.Length == |w|
    requires view.Length == 44 + 2 * FrameSlot(buffer.length, 0, |buffer.channelData|)
    requires view[..44] == w[..44]
    modifies view
    ensures view[..] == w
  {
    var offset := 44;
    var i := 0;
    while i < buffer.length
      invariant 0 <= i <= buffer.length
      invariant offset == 44 + 2 * FrameSlot(i, 0, |buffer.channelData|)
      invariant offset <= view.Length
      invariant view[..offset] == w[..offset]
    {
      offset := WriteFrame(view, offset, buffer, i, w);
      NextFrameSlot(i, |buffer.channelData|);
      i := i + 1;
    }
    assert view[..] == view[..offset];
  }

  /** Frame `i` ends where frame `i + 1` starts. */
  lemma NextFrameSlot(i: nat, c: nat)
    ensures FrameSlot(i, c, c) == FrameSlot(i + 1, 0, c)
  {
  }

  /** The frames fill the data part exactly. */
  lemma FrameSlotsFill(length: nat, c: nat)
    ensures 44 + length * c * 2 == 44 + 2 * FrameSlot(length, 0, c)
  {
  }

  /** The inner loop of `audioBufferToWav`: sample `i` of every channel,
      channel by channel. */
  method WriteFrame(view: array<byte>, offset: nat, buffer: AudioBuffer, i: nat, ghost w: seq<byte>) returns (next: nat)
    requires ValidBuffer(buffer) && i < buffer.length
    requires HoldsSamples(w, Interleave(buffer)) && view.Length == |w|
    requires offset == 44 + 2 * FrameSlot(i, 0, |buffer.channelData|)
    requires view[..offset] == w[..offset]
    modifies view
    ensures next == 44 + 2 * FrameSlot(i, |buffer.channelData|, |buffer.channelData|) <= view.Length
    ensures view[..next] == w[..next]
  {
    var numberOfChannels := |buffer.channelData|;
    ghost var base := FrameSlot(i, 0, numberOfChannels);
    next := offset;
    var channel := 0;
    while channel < numberOfChannels
      invariant 0 <= channel <= numberOfChannels
      invariant next == 44 + 2 * (base + channel)
      invariant next <= view.Length
      invariant view[..next] == w[..next]
    {
      WriteChannelSample(view, next, buffer, i, channel, w);
      next := next + 2;
      channel := channel + 1;
    }
    assert FrameSlot(i, numberOfChannels, numberOfChannels) == base + numberOfChannels;
  }

  /** One step of that loop: sample `i` of channel `channel` at its slot. */
  method WriteChannelSample(view: array<byte>, offset: nat, buffer: AudioBuffer, i: nat, channel: nat, ghost w: seq<byte>)
    requires ValidBuffer(buffer) && i < buffer.length && channel < |buffer.channelData|
    requires HoldsSamples(w, Interleave(buffer)) && view.Length == |w|
    requires offset == 44 + 2 * (FrameSlot(i, 0, |buffer.channelData|) + channel)
    requires view[..offset] == w[..offset]
    modifies view
    ensures offset + 2 <= view.Length && view[..offset + 2] == w[..offset + 2]
  {
    var c := |buffer.channelData|;
    FrameSlotBounds(i, channel, c, buffer.length);
    assert FrameSlot(i, channel, c) == FrameSlot(i, 0, c) + channel;
    assert w[offset..offset + 2] == U16(Interleave(buffer)[FrameSlot(i, channel, c)]);
    WriteSample(view, offset, buffer.channelData[channel][i], w);
  }

  /** In the `createWavBlob` image, sample `i` of chunk `c` follows the
      samples of the chunks before it. */
  lemma CreateWavSampleOrder(chunks: seq<seq<int16>>, sampleRate: int, c: nat, i: nat)
    requires c < |chunks| && i < |chunks[c]|
    ensures var w := Wav(Concat(chunks), 1, sampleRate);
            |w| == 44 + 2 * TotalLength(chunks) &&
            44 + 2 * (TotalLength(chunks[..c]) + i) + 2 <= |w| &&
            ReadI16(w, 44 + 2 * (TotalLength(chunks[..c]) + i)) == chunks[c][i]
  {
    var k := TotalLength(chunks[..c]) + i;
    ConcatAt(chunks, c, i);
    WavSampleAt(Concat(chunks), 1, sampleRate, k);
    I16RoundTrip(chunks[c][i]);
  }

  /** In the `audioBufferToWav` image, sample `i` of channel `ch` sits at
      offset 44 + 2 * (i * channels + ch): the channels are interleaved
      frame by frame. */
  lemma AudioBufferSampleOrder(buffer: AudioBuffer, i: nat, ch: nat)
    requires ValidBuffer(buffer) && i < buffer.length && ch < |buffer.channelData|
    ensures var c := |buffer.channelData|;
            var w := Wav(Interleave(buffer), c, buffer.sampleRate);
            |w| == 44 + 2 * (buffer.length * c) &&
            44 + 2 * (i * c + ch) + 2 <= |w| &&
            ReadI16(w, 44 + 2 * (i * c + ch)) == buffer.channelData[ch][i]
  {
    var c := |buffer.channelData|;
    var s := Interleave(buffer);
    var k := FrameSlot(i, ch, c);
    FrameSlotBounds(i, ch, c, buffer.length);
    assert k < |s| && s[k] == buffer.channelData[ch][i];
    WavLayout(s, c, buffer.sampleRate);
    assert ReadI16(Wav(s, c, buffer.sampleRate), 44 + 2 * k) == s[k];
  }
}
