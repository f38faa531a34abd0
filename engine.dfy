/**
 * The AAC decode engine (libfaad's NeAACDec* calls) is opaque to this front end.
 * It is modelled by what its calls return: a snapshot of the engine is a value of
 * type Engine whose three functions give, for the bytes handed to a call, the
 * result of NeAACDecInit, NeAACDecInit2 and NeAACDecDecode.
 */
module Engine {
  import opened Common

  /** Sample rate and channel count reported by an init call. */
  datatype AudioConfig = AudioConfig(rate: nat, channels: nat)

  /** NeAACDecInit: bytes of the stream used for initialisation, or negative on failure. */
  datatype InitResult = InitResult(n: int, config: AudioConfig)

  /** NeAACDecFrameInfo together with the returned sample buffer. */
  datatype FrameInfo = FrameInfo(bytesConsumed: nat, samples: nat, channels: nat, error: nat, pcm: seq<int>)

  datatype Engine = Engine(
    init: seq<byte> -> InitResult,
    init2: seq<byte> -> Option<AudioConfig>,
    decode: seq<byte> -> FrameInfo)

  /** Most frames one decode call produces per channel (1024 doubled by SBR). */
  const MAX_FRAMES: nat := 2048

  /** A signed 24-bit sample, the engine's output format (FAAD_FMT_24BIT, faad.c:447). */
  predicate Is24Bit(x: int)
  {
    -0x80_0000 <= x < 0x80_0000
  }

  /** What a decode call returning f on inputLen bytes promises: it consumed no more
      than it was given, its sample buffer holds `samples` 24-bit values, and a
      non-empty result has a channel count and at most MAX_FRAMES frames. */
  predicate FrameOk(f: FrameInfo, inputLen: nat)
  {
    && f.bytesConsumed <= inputLen
    && f.samples <= |f.pcm|
    && (f.samples > 0 ==> 1 <= f.channels && f.samples / f.channels <= MAX_FRAMES)
    && forall k :: 0 <= k < |f.pcm| ==> Is24Bit(f.pcm[k])
  }

  /** The engine never claims to have used more bytes than it was handed. */
  ghost predicate Behaves(e: Engine)
  {
    && (forall input: seq<byte> :: e.init(input).n <= |input|)
    && (forall input: seq<byte> :: FrameOk(e.decode(input), |input|))
  }
}
