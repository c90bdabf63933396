/**
 * The byte handling of the audio utilities: copying the decoded base64 text into a byte
 * array, viewing raw PCM bytes as 16-bit little-endian samples, and assembling an MP3 file
 * from the frames a streaming encoder hands back. The encoder's bitstream logic is not
 * modelled: the encoder is an object whose answers come from two oracle functions.
 */
module AudioUtils {
  import opened Wrappers
  import opened Seqs

  newtype byte = x: int | 0 <= x < 256

  /** One signed 16-bit PCM sample. */
  type Sample = x: int | -32768 <= x < 32768

  /** The browser's `atob`: base64 text to a binary string, or the error it throws. */
  type Atob = string -> Result<string, Error>

  /** The byte the typed array stores for each character of a binary string (`ToUint8`). */
  function BinaryBytes(binary: string): seq<byte> {
    seq(|binary|, i requires 0 <= i < |binary| => (binary[i] as int % 256) as byte)
  }

  /** A binary string holding one character per byte, as `atob` produces it. */
  function BinaryString(bytes: seq<byte>): string {
    seq(|bytes|, i requires 0 <= i < |bytes| => bytes[i] as int as char)
  }

  predicate IsBinaryString(s: string) {
    forall i :: 0 <= i < |s| ==> s[i] as int < 256
  }

  /** Copying a binary string into bytes loses nothing that the string carried. */
  lemma BinaryBytesRoundTrip(bytes: seq<byte>)
    ensures IsBinaryString(BinaryString(bytes))
    ensures BinaryBytes(BinaryString(bytes)) == bytes
  {
  }

  lemma BinaryStringRoundTrip(s: string)
    requires IsBinaryString(s)
    ensures BinaryString(BinaryBytes(s)) == s
  {
  }

  /**
   * `decodeBase64`: `atob`, then a preallocated byte array filled one character code at a
   * time. An exception from `atob` propagates to the caller.
   */
  method DecodeBase64(base64: string, atob: Atob) returns (decoded: Result<array<byte>, Error>)
    ensures atob(base64).Err? ==> decoded == Err(atob(base64).error)
    ensures atob(base64).Ok? ==>
      && decoded.Ok? && fresh(decoded.value)
      && decoded.value.Length == |atob(base64).value|
      && decoded.value[..] == BinaryBytes(atob(base64).value)
  {
    if atob(base64).Err? {
      return Err(atob(base64).error);
    }
    var binaryString := atob(base64).value;
    var len := |binaryString|;
    var bytes := new byte[len];
    for i := 0 to len
      invariant forall j :: 0 <= j < i ==> bytes[j] == (binaryString[j] as int % 256) as byte
    {
      bytes[i] := (binaryString[i] as int % 256) as byte;
    }
    return Ok(bytes);
  }

  /** Two's-complement reading of a little-endian byte pair. */
  function Int16LE(lo: byte, hi: byte): Sample {
    var u := lo as int + 256 * hi as int;
    if u < 32768 then u else u - 65536
  }

  function LowByte(x: Sample): byte {
    ((x % 65536) % 256) as byte
  }

  function HighByte(x: Sample): byte {
    ((x % 65536) / 256) as byte
  }

  /** `new Int16Array(chunk.buffer)`: the samples a byte buffer holds, two bytes each. */
  function PcmSamples(pcm: seq<byte>): (samples: seq<Sample>)
    ensures |samples| == |pcm| / 2
  {
    seq(|pcm| / 2, k requires 0 <= k < |pcm| / 2 => Int16LE(pcm[2 * k], pcm[2 * k + 1]))
  }

  /** The little-endian bytes of a run of samples; the partner of PcmSamples. */
  function SampleBytes(samples: seq<Sample>): (pcm: seq<byte>)
    ensures |pcm| == 2 * |samples|
  {
    if samples == [] then []
    else [LowByte(samples[0]), HighByte(samples[0])] + SampleBytes(samples[1..])
  }

  lemma {:induction false} SampleBytesAt(samples: seq<Sample>, k: nat)
    requires k < |samples|
    ensures SampleBytes(samples)[2 * k] == LowByte(samples[k])
    ensures SampleBytes(samples)[2 * k + 1] == HighByte(samples[k])
  {
    var pcm := SampleBytes(samples);
    assert pcm == [LowByte(samples[0]), HighByte(samples[0])] + SampleBytes(samples[1..]);
    if k > 0 {
      var j := k - 1;
      SampleBytesAt(samples[1..], j);
      assert samples[1..][j] == samples[k];
      assert pcm[2 * k] == SampleBytes(samples[1..])[2 * j];
      assert pcm[2 * k + 1] == SampleBytes(samples[1..])[2 * j + 1];
    }
  }

  lemma PairRoundTrip(x: Sample)
    ensures Int16LE(LowByte(x), HighByte(x)) == x
  {
    var u := x % 65536;
    assert LowByte(x) as int + 256 * HighByte(x) as int == u;
  }

  lemma BytesRoundTrip(lo: byte, hi: byte)
    ensures LowByte(Int16LE(lo, hi)) == lo && HighByte(Int16LE(lo, hi)) == hi
  {
    var u := lo as int + 256 * hi as int;
    assert Int16LE(lo, hi) % 65536 == u;
  }

  /** Reading samples back from their bytes gives the samples. */
  lemma SamplesRoundTrip(samples: seq<Sample>)
    ensures PcmSamples(SampleBytes(samples)) == samples
  {
    var pcm := SampleBytes(samples);
    forall k | 0 <= k < |samples|
      ensures PcmSamples(pcm)[k] == samples[k]
    {
      SampleBytesAt(samples, k);
      PairRoundTrip(samples[k]);
    }
  }

  /** An even-length buffer is exactly the bytes of the samples the view reads from it. */
  lemma PcmRoundTrip(pcm: seq<byte>)
    requires |pcm| % 2 == 0
    ensures SampleBytes(PcmSamples(pcm)) == pcm
  {
    var samples := PcmSamples(pcm);
    forall i | 0 <= i < |pcm|
      ensures SampleBytes(samples)[i] == pcm[i]
    {
      var k := i / 2;
      SampleBytesAt(samples, k);
      BytesRoundTrip(pcm[2 * k], pcm[2 * k + 1]);
    }
  }

  /** The error `new Int16Array(buffer)` throws for a buffer of odd byte length. */
  const Int16ViewError := Error("byte length of Int16Array should be a multiple of 2")

  const MpegMime := "audio/mpeg"

  datatype EncoderConfig = EncoderConfig(channels: nat, sampleRate: nat, kbps: nat)

  /** What `encodeBuffer` returns, given the configuration, the buffers fed so far and the new one. */
  type EncodeOracle = (EncoderConfig, seq<seq<Sample>>, seq<Sample>) -> seq<byte>

  /** What `flush` returns, given the configuration and every buffer fed. */
  type FlushOracle = (EncoderConfig, seq<seq<Sample>>) -> seq<byte>

  /** The streaming MP3 encoder: its answers come from the oracles, its calls are recorded. */
  class Mp3Encoder {
    const config: EncoderConfig
    const encodeStep: EncodeOracle
    const flushStep: FlushOracle
    /** Every sample buffer passed to EncodeBuffer, in call order. */
    var fed: seq<seq<Sample>>
    /** How many times Flush was called. */
    var flushes: nat

    constructor (channels: nat, sampleRate: nat, kbps: nat, encodeStep: EncodeOracle, flushStep: FlushOracle)
      ensures config == EncoderConfig(channels, sampleRate, kbps)
      ensures this.encodeStep == encodeStep && this.flushStep == flushStep
      ensures fed == [] && flushes == 0
    {
      config := EncoderConfig(channels, sampleRate, kbps);
      this.encodeStep := encodeStep;
      this.flushStep := flushStep;
      fed := [];
      flushes := 0;
    }

    method EncodeBuffer(samples: seq<Sample>) returns (frame: seq<byte>)
      modifies this
      ensures frame == encodeStep(config, old(fed), samples)
      ensures fed == old(fed) + [samples] && flushes == old(flushes)
    {
      frame := encodeStep(config, fed, samples);
      fed := fed + [samples];
    }

    method Flush() returns (frame: seq<byte>)
      modifies this
      ensures frame == flushStep(config, fed)
      ensures fed == old(fed) && flushes == old(flushes) + 1
    {
      frame := flushStep(config, fed);
      flushes := flushes + 1;
    }
  }

  /** The MP3 file: the frame list it was built from, and its MIME type. */
  datatype Blob = Blob(parts: seq<seq<byte>>, mimeType: string) {
    function Bytes(): seq<byte> {
      Flatten(parts)
    }
  }

  /** The frames kept by `if (mp3buf.length > 0) mp3Data.push(mp3buf)`, in order. */
  function NonEmpty(frames: seq<seq<byte>>): seq<seq<byte>> {
    if frames == [] then []
    else
      var last := frames[|frames| - 1];
      NonEmpty(frames[..|frames| - 1]) + (if last != [] then [last] else [])
  }

  /** What the encoder returns for each sample buffer, fed one after another into a fresh encoder. */
  function EncodedFrames(config: EncoderConfig, encode: EncodeOracle, buffers: seq<seq<Sample>>): seq<seq<byte>> {
    if buffers == [] then []
    else
      var history := buffers[..|buffers| - 1];
      EncodedFrames(config, encode, history) + [encode(config, history, buffers[|buffers| - 1])]
  }

  /** Feeding one more buffer keeps the frames kept so far and appends the new output if it is not empty. */
  lemma EncodeStep(config: EncoderConfig, encode: EncodeOracle, history: seq<seq<Sample>>, samples: seq<Sample>)
    ensures var frame := encode(config, history, samples);
      NonEmpty(EncodedFrames(config, encode, history + [samples]))
        == NonEmpty(EncodedFrames(config, encode, history)) + (if frame != [] then [frame] else [])
  {
    var buffers := history + [samples];
    assert buffers[..|buffers| - 1] == history;
    var frames := EncodedFrames(config, encode, buffers);
    assert frames[..|frames| - 1] == EncodedFrames(config, encode, history);
  }

  /** The flush output comes after the kept encoder outputs, and is kept only if it is not empty. */
  lemma FlushStep(config: EncoderConfig, encode: EncodeOracle, flush: FlushOracle, buffers: seq<seq<Sample>>)
    ensures var last := flush(config, buffers);
      Mp3Frames(config, encode, flush, buffers)
        == NonEmpty(EncodedFrames(config, encode, buffers)) + (if last != [] then [last] else [])
  {
    var all := EncodedFrames(config, encode, buffers) + [flush(config, buffers)];
    assert all[..|all| - 1] == EncodedFrames(config, encode, buffers);
  }

  /** The frame list of the finished file: every non-empty encoder output, then the flush output. */
  function Mp3Frames(config: EncoderConfig, encode: EncodeOracle, flush: FlushOracle, buffers: seq<seq<Sample>>): seq<seq<byte>> {
    NonEmpty(EncodedFrames(config, encode, buffers) + [flush(config, buffers)])
  }

  /** The sample view of every PCM chunk, chunk by chunk. */
  function SampleBuffers(chunks: seq<seq<byte>>): (buffers: seq<seq<Sample>>)
    ensures |buffers| == |chunks|
  {
    seq(|chunks|, j requires 0 <= j < |chunks| => PcmSamples(chunks[j]))
  }

  /** The sample views of one more chunk are the earlier views plus the new chunk's. */
  lemma SampleBuffersStep(chunks: seq<seq<byte>>, i: nat)
    requires i < |chunks|
    ensures SampleBuffers(chunks[..i + 1]) == SampleBuffers(chunks[..i]) + [PcmSamples(chunks[i])]
  {
    assert chunks[..i + 1] == chunks[..i] + [chunks[i]];
  }

  /** The index of the first chunk of odd byte length, or the number of chunks if there is none. */
  function FirstOddChunk(chunks: seq<seq<byte>>): (k: nat)
    ensures k <= |chunks|
    ensures forall j :: 0 <= j < k ==> |chunks[j]| % 2 == 0
    ensures k < |chunks| ==> |chunks[k]| % 2 == 1
  {
    if chunks == [] then 0
    else if |chunks[0]| % 2 == 1 then 0
    else 1 + FirstOddChunk(chunks[1..])
  }

  /** Keeping only the non-empty frames drops no byte and reorders nothing. */
  lemma {:induction false} NonEmptyKeepsBytes(frames: seq<seq<byte>>)
    ensures Flatten(NonEmpty(frames)) == Flatten(frames)
  {
    if frames != [] {
      var init := frames[..|frames| - 1];
      var last := frames[|frames| - 1];
      var kept := if last != [] then [last] else [];
      NonEmptyKeepsBytes(init);
      FlattenAppend(NonEmpty(init), kept);
      if last != [] {
        FlattenSingleton(last);
      }
    }
  }

  /** The positions of the non-empty frames, in increasing order. */
  function NonEmptyIndices(frames: seq<seq<byte>>): seq<nat> {
    if frames == [] then []
    else
      var j := |frames| - 1;
      NonEmptyIndices(frames[..j]) + (if frames[j] != [] then [j] else [])
  }

  /**
   * The positions of the non-empty frames: each names a non-empty frame, they increase, and a
   * position is among them exactly when its frame is not empty.
   */
  lemma {:induction false} NonEmptyIndicesAt(frames: seq<seq<byte>>)
    ensures var idx := NonEmptyIndices(frames);
      && (forall m :: 0 <= m < |idx| ==> idx[m] < |frames| && frames[idx[m]] != [])
      && (forall m, m' :: 0 <= m < m' < |idx| ==> idx[m] < idx[m'])
      && (forall j :: 0 <= j < |frames| ==> (frames[j] != [] <==> j in idx))
  {
    if frames != [] {
      var j := |frames| - 1;
      var init := frames[..j];
      NonEmptyIndicesAt(init);
      var idx0, idx := NonEmptyIndices(init), NonEmptyIndices(frames);
      assert idx == idx0 + (if frames[j] != [] then [j] else []);
      assert forall t :: 0 <= t < j ==> init[t] == frames[t];
    }
  }

  /**
   * The kept frames are exactly the non-empty ones, each one whole and in its original order:
   * kept frame m is frame idx[m] of the non-empty positions idx. Nothing is merged, split or
   * reordered.
   */
  lemma {:induction false} NonEmptyDropsOnlyEmpty(frames: seq<seq<byte>>)
    ensures var kept := NonEmpty(frames);
      var idx := NonEmptyIndices(frames);
      && |kept| == |idx|
      && (forall m :: 0 <= m < |idx| ==> 0 <= idx[m] < |frames| && kept[m] == frames[idx[m]])
  {
    NonEmptyIndicesAt(frames);
    if frames != [] {
      var j := |frames| - 1;
      var init := frames[..j];
      NonEmptyDropsOnlyEmpty(init);
      NonEmptyIndicesAt(init);
      var kept0, idx0 := NonEmpty(init), NonEmptyIndices(init);
      var kept, idx := NonEmpty(frames), NonEmptyIndices(frames);
      if frames[j] != [] {
        assert kept == kept0 + [frames[j]] && idx == idx0 + [j];
      } else {
        assert kept == kept0 && idx == idx0;
      }
      forall m | 0 <= m < |idx0|
        ensures kept[m] == frames[idx[m]]
      {
        assert init[idx0[m]] == frames[idx0[m]];
      }
    }
  }

  /** When no frame is empty, every frame is kept. */
  lemma {:induction false} NonEmptyKeepsAll(frames: seq<seq<byte>>)
    requires forall m :: 0 <= m < |frames| ==> frames[m] != []
    ensures NonEmpty(frames) == frames
  {
    if frames != [] {
      var init := frames[..|frames| - 1];
      assert forall m :: 0 <= m < |init| ==> init[m] == frames[m];
      NonEmptyKeepsAll(init);
      assert frames == init + [frames[|frames| - 1]];
    }
  }

  /** The j-th encoder output is the encoder's answer to buffer j, given buffers 0..j-1 as history. */
  lemma {:induction false} EncodedFramesAt(config: EncoderConfig, encode: EncodeOracle, buffers: seq<seq<Sample>>)
    ensures |EncodedFrames(config, encode, buffers)| == |buffers|
    ensures forall j :: 0 <= j < |buffers| ==>
      EncodedFrames(config, encode, buffers)[j] == encode(config, buffers[..j], buffers[j])
  {
    if buffers != [] {
      var history := buffers[..|buffers| - 1];
      EncodedFramesAt(config, encode, history);
      forall j | 0 <= j < |buffers|
        ensures EncodedFrames(config, encode, buffers)[j] == encode(config, buffers[..j], buffers[j])
      {
        if j < |history| {
          assert history[..j] == buffers[..j];
        }
      }
    }
  }

  /**
   * The bytes of the MP3 file are every encoder output followed by the flush output, whatever
   * the empty ones among them; with no PCM chunk the file is the flush output alone.
   */
  lemma Mp3BytesAreAllOutputs(config: EncoderConfig, encode: EncodeOracle, flush: FlushOracle, buffers: seq<seq<Sample>>)
    ensures Blob(Mp3Frames(config, encode, flush, buffers), MpegMime).Bytes()
      == Flatten(EncodedFrames(config, encode, buffers)) + flush(config, buffers)
    ensures buffers == [] ==> Blob(Mp3Frames(config, encode, flush, buffers), MpegMime).Bytes() == flush(config, buffers)
  {
    var frames := EncodedFrames(config, encode, buffers) + [flush(config, buffers)];
    NonEmptyKeepsBytes(frames);
    FlattenAppend(EncodedFrames(config, encode, buffers), [flush(config, buffers)]);
    FlattenSingleton(flush(config, buffers));
  }

  /**
   * `createMp3File`: a fresh encoder (1 channel, the given sample rate, 128 kbps) is fed every
   * chunk's sample view in order, its non-empty outputs are collected, it is flushed once and
   * the flush output, if non-empty, is the last frame. A chunk of odd byte length makes the
   * sample view throw before it reaches the encoder, and nothing is flushed.
   */
  method CreateMp3File(audioPcmChunks: seq<seq<byte>>, sampleRate: nat, encode: EncodeOracle, flush: FlushOracle)
    returns (blob: Result<Blob, Error>, encoder: Mp3Encoder)
    ensures fresh(encoder)
    ensures encoder.config == EncoderConfig(1, sampleRate, 128)
    ensures encoder.encodeStep == encode && encoder.flushStep == flush
    ensures encoder.fed == SampleBuffers(audioPcmChunks[..FirstOddChunk(audioPcmChunks)])
    ensures FirstOddChunk(audioPcmChunks) == |audioPcmChunks| ==>
      && blob == Ok(Blob(Mp3Frames(encoder.config, encode, flush, SampleBuffers(audioPcmChunks)), MpegMime))
      && encoder.flushes == 1
    ensures FirstOddChunk(audioPcmChunks) < |audioPcmChunks| ==>
      blob == Err(Int16ViewError) && encoder.flushes == 0
  {
    encoder := new Mp3Encoder(1, sampleRate, 128, encode, flush);
    var mp3Data: seq<seq<byte>> := [];
    var i := 0;
    while i < |audioPcmChunks|
      invariant 0 <= i <= FirstOddChunk(audioPcmChunks)
      invariant encoder.config == EncoderConfig(1, sampleRate, 128)
      invariant encoder.encodeStep == encode && encoder.flushStep == flush
      invariant encoder.fed == SampleBuffers(audioPcmChunks[..i]) && encoder.flushes == 0
      invariant mp3Data == NonEmpty(EncodedFrames(encoder.config, encode, encoder.fed))
    {
      var pcmChunk := audioPcmChunks[i];
      if |pcmChunk| % 2 != 0 {
        assert FirstOddChunk(audioPcmChunks) == i;
        blob := Err(Int16ViewError);
        return;
      }
      var pcmInt16 := PcmSamples(pcmChunk);
      EncodeStep(encoder.config, encode, encoder.fed, pcmInt16);
      SampleBuffersStep(audioPcmChunks, i);
      var mp3buf := encoder.EncodeBuffer(pcmInt16);
      if |mp3buf| > 0 {
        mp3Data := mp3Data + [mp3buf];
      }
      i := i + 1;
    }
    assert audioPcmChunks[..i] == audioPcmChunks;
    assert encoder.fed == SampleBuffers(audioPcmChunks);
    FlushStep(encoder.config, encode, flush, encoder.fed);
    var last := encoder.Flush();
    if |last| > 0 {
      mp3Data := mp3Data + [last];
    }
    assert mp3Data == Mp3Frames(encoder.config, encode, flush, encoder.fed);
    blob := Ok(Blob(mp3Data, MpegMime));
  }
}
