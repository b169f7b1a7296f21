/**
 * Records and constants shared by the decoding library: errno values, the
 * implementation enumeration, format descriptors, frames with their ancillary
 * data, the decoder configuration and the callback set.
 */
module AdecTypes {

  datatype Option<+T> = None | Some(value: T)

  // Linux errno values used by the library (returned negated).
  const EAGAIN: int := 11
  const ENOMEM: int := 12
  const EINVAL: int := 22
  const ENOSPC: int := 28
  const ENOSYS: int := 38
  const EPROTO: int := 71
  const EBADMSG: int := 74
  const EALREADY: int := 114

  /** The largest 64-bit unsigned value; `last_timestamp` holds it while there is no previous frame. */
  const UINT64_MAX: int := 0xFFFF_FFFF_FFFF_FFFF

  /** A 64-bit unsigned value, such as a frame timestamp. */
  type U64 = x: int | 0 <= x <= UINT64_MAX

  /** The status a library call returns: 0 on success, a negative errno otherwise. */
  type Status = x: int | x <= 0

  /** `enum adec_decoder_implem`: AUTO = 0 < FDK_AAC < MAX, MAX being only a loop bound. */
  const IMPLEM_AUTO: int := 0
  const IMPLEM_FDK_AAC: int := 1
  const IMPLEM_MAX: int := 2

  // Ancillary data keys; each holds a 64-bit monotonic microsecond value.
  const KEY_INPUT_TIME: string := "adec.input_time"
  const KEY_DEQUEUE_TIME: string := "adec.dequeue_time"
  const KEY_OUTPUT_TIME: string := "adec.output_time"

  datatype Encoding = EncodingUnknown | Pcm | AacLc | OtherEncoding

  /** AAC framing of an encoded stream (`enum adef_aac_data_format`). */
  datatype AacDataFormat = DataFormatUnknown | Raw | Adif | Adts | OtherDataFormat

  /** Format descriptor (`struct adef_format`), reduced to the fields the library reads or writes. */
  datatype Format = Format(
    encoding: Encoding,
    sampleRate: nat,
    channelCount: nat,
    bitDepth: nat,
    interleaved: bool,
    signedVal: bool,
    littleEndian: bool,
    dataFormat: AacDataFormat)

  /** The all-zero descriptor a `calloc`'ed record starts with. */
  const ZERO_FORMAT := Format(EncodingUnknown, 0, 0, 0, false, false, false, DataFormatUnknown)

  /**
   * Format intersection. The real test belongs to the format library, which
   * is not part of this model; membership of the descriptor stands in for it.
   */
  predicate FormatIntersect(f: Format, formats: seq<Format>)
  {
    f in formats
  }

  /** Per-frame information (`struct adef_frame_info`). */
  datatype FrameInfo = FrameInfo(index: nat, timestamp: U64)

  /**
   * An audio frame: its information, its format, its ancillary data and its
   * buffer size. `infoErr` and `bufferErr` are what the frame library returns
   * when the frame information or the packed buffer is asked for.
   */
  datatype Frame = Frame(
    info: FrameInfo,
    format: Format,
    ancillary: map<string, nat>,
    size: nat,
    infoErr: Status,
    bufferErr: Status)

  /**
   * Attaching ancillary data: the store refuses a key that is already present
   * (the library only logs that failure), otherwise the key is added.
   */
  function AddAncillary(f: Frame, key: string, value: nat): (g: Frame)
    ensures key in g.ancillary
    ensures g.ancillary.Keys == f.ancillary.Keys + {key}
    ensures forall k :: k in f.ancillary ==> g.ancillary[k] == f.ancillary[k]
    ensures key !in f.ancillary ==> g.ancillary[key] == value
    ensures g.(ancillary := f.ancillary) == f
  {
    if key in f.ancillary then f else f.(ancillary := f.ancillary[key := value])
  }

  /** Implementation-specific configuration extension (`struct adec_config_impl`). */
  datatype ConfigImpl = ConfigImpl(implem: int)

  /** Decoder configuration (`struct adec_config`), the fields the library reads. */
  datatype Config = Config(
    name: Option<string>,
    implem: int,
    encoding: Encoding,
    implemCfg: Option<ConfigImpl>)

  /** Which callbacks of `struct adec_cbs` are set; frame_output is mandatory. */
  datatype Callbacks = Callbacks(frameOutput: bool, flush: bool, stop: bool)

  /** A callback delivered to the application, in delivery order. */
  datatype AppEvent =
    | FrameOutput(status: int, frame: Option<Frame>)
    | FlushDone
    | StopDone

  /** The operation table of a backend; only set_aac_asc may be NULL. */
  datatype Ops = Ops(implem: int, hasSetAacAsc: bool)

  /** Counters of `struct adec_decoder`: admitted, pushed to the codec, pulled from it, delivered. */
  datatype Counters = Counters(input: nat, pushed: nat, pulled: nat, output: nat)

  const ZERO_COUNTERS := Counters(0, 0, 0, 0)
}
