/**
 * The FDK AAC codec engine as the backend sees it: error codes, their names,
 * the transport types, and an abstract engine whose calls return outcome
 * codes. The engine is foreign code; here it is a script of the outcomes its
 * calls will return, consumed one call at a time.
 */
module FdkAacEngine {
  import opened AdecTypes

  /** `AAC_DECODER_ERROR`, every code the backend names; `Unlisted` is any other value. */
  datatype AacError =
    | Ok
    | OutOfMemory
    | Unknown
    | TransportSyncError
    | NotEnoughBits
    | InvalidHandle
    | UnsupportedAot
    | UnsupportedFormat
    | UnsupportedErFormat
    | UnsupportedEpConfig
    | UnsupportedMultilayer
    | UnsupportedChannelConfig
    | UnsupportedSamplingRate
    | InvalidSbrConfig
    | SetParamFail
    | NeedToRestart
    | OutputBufferTooSmall
    | TransportError
    | ParseError
    | UnsupportedExtensionPayload
    | DecodeFrameError
    | CrcError
    | InvalidCodeBook
    | UnsupportedPrediction
    | UnsupportedCce
    | UnsupportedLfe
    | UnsupportedGainControlData
    | UnsupportedSba
    | TnsReadError
    | RvlcError
    | AncDataError
    | TooSmallAncBuffer
    | TooManyAncElements
    | Unlisted

  /** Name of a codec error, used in log messages; any unlisted value is "UNKNOWN". */
  function ErrorToStr(err: AacError): (s: string)
    ensures s == "UNKNOWN" <==> err == Unknown || err == Unlisted
  {
    match err
    case Ok => "OK"
    case OutOfMemory => "OUT_OF_MEMORY"
    case Unknown => "UNKNOWN"
    case TransportSyncError => "TRANSPORT_SYNC_ERROR"
    case NotEnoughBits => "NOT_ENOUGH_BITS"
    case InvalidHandle => "INVALID_HANDLE"
    case UnsupportedAot => "UNSUPPORTED_AOT"
    case UnsupportedFormat => "UNSUPPORTED_FORMAT"
    case UnsupportedErFormat => "UNSUPPORTED_ER_FORMAT"
    case UnsupportedEpConfig => "UNSUPPORTED_EPCONFIG"
    case UnsupportedMultilayer => "UNSUPPORTED_MULTILAYER"
    case UnsupportedChannelConfig => "UNSUPPORTED_CHANNELCONFIG"
    case UnsupportedSamplingRate => "UNSUPPORTED_SAMPLINGRATE"
    case InvalidSbrConfig => "INVALID_SBR_CONFIG"
    case SetParamFail => "SET_PARAM_FAIL"
    case NeedToRestart => "NEED_TO_RESTART"
    case OutputBufferTooSmall => "OUTPUT_BUFFER_TOO_SMALL"
    case TransportError => "TRANSPORT_ERROR"
    case ParseError => "PARSE_ERROR"
    case UnsupportedExtensionPayload => "UNSUPPORTED_EXTENSION_PAYLOAD"
    case DecodeFrameError => "DECODE_FRAME_ERROR"
    case CrcError => "CRC_ERROR"
    case InvalidCodeBook => "INVALID_CODE_BOOK"
    case UnsupportedPrediction => "UNSUPPORTED_PREDICTION"
    case UnsupportedCce => "UNSUPPORTED_CCE"
    case UnsupportedLfe => "UNSUPPORTED_LFE"
    case UnsupportedGainControlData => "UNSUPPORTED_GAIN_CONTROL_DATA"
    case UnsupportedSba => "UNSUPPORTED_SBA"
    case TnsReadError => "TNS_READ_ERROR"
    case RvlcError => "RVLC_ERROR"
    case AncDataError => "ANC_DATA_ERROR"
    case TooSmallAncBuffer => "TOO_SMALL_ANC_BUFFER"
    case TooManyAncElements => "TOO_MANY_ANC_ELEMENTS"
    case Unlisted => "UNKNOWN"
  }

  /** "OK" names only AAC_DEC_OK. */
  lemma {:induction false} OkNameOnlyForOk(err: AacError)
    ensures ErrorToStr(err) == "OK" <==> err == Ok
  {
    match err
    case Ok =>
    case OutOfMemory =>
    case Unknown =>
    case TransportSyncError =>
    case NotEnoughBits =>
    case InvalidHandle =>
    case UnsupportedAot =>
    case UnsupportedFormat =>
    case UnsupportedErFormat =>
    case UnsupportedEpConfig =>
    case UnsupportedMultilayer =>
    case UnsupportedChannelConfig =>
    case UnsupportedSamplingRate =>
    case InvalidSbrConfig =>
    case SetParamFail =>
    case NeedToRestart =>
    case OutputBufferTooSmall =>
    case TransportError =>
    case ParseError =>
    case UnsupportedExtensionPayload =>
    case DecodeFrameError =>
    case CrcError =>
    case InvalidCodeBook =>
    case UnsupportedPrediction =>
    case UnsupportedCce =>
    case UnsupportedLfe =>
    case UnsupportedGainControlData =>
    case UnsupportedSba =>
    case TnsReadError =>
    case RvlcError =>
    case AncDataError =>
    case TooSmallAncBuffer =>
    case TooManyAncElements =>
    case Unlisted =>
  }

  /** "NOT_ENOUGH_BITS" names only AAC_DEC_NOT_ENOUGH_BITS. */
  lemma {:induction false} NotEnoughBitsNameOnlyForNotEnoughBits(err: AacError)
    ensures ErrorToStr(err) == "NOT_ENOUGH_BITS" <==> err == NotEnoughBits
  {
    match err
    case Ok =>
    case OutOfMemory =>
    case Unknown =>
    case TransportSyncError =>
    case NotEnoughBits =>
    case InvalidHandle =>
    case UnsupportedAot =>
    case UnsupportedFormat =>
    case UnsupportedErFormat =>
    case UnsupportedEpConfig =>
    case UnsupportedMultilayer =>
    case UnsupportedChannelConfig =>
    case UnsupportedSamplingRate =>
    case InvalidSbrConfig =>
    case SetParamFail =>
    case NeedToRestart =>
    case OutputBufferTooSmall =>
    case TransportError =>
    case ParseError =>
    case UnsupportedExtensionPayload =>
    case DecodeFrameError =>
    case CrcError =>
    case InvalidCodeBook =>
    case UnsupportedPrediction =>
    case UnsupportedCce =>
    case UnsupportedLfe =>
    case UnsupportedGainControlData =>
    case UnsupportedSba =>
    case TnsReadError =>
    case RvlcError =>
    case AncDataError =>
    case TooSmallAncBuffer =>
    case TooManyAncElements =>
    case Unlisted =>
  }

  /** Transport types of the codec that the backend opens it with. */
  datatype TransportType = TtMp4Raw | TtMp4Adif | TtMp4Adts

  /** The transport type for an AAC data format; other data formats are unsupported. */
  function TransportTypeOf(df: AacDataFormat): (tt: Option<TransportType>)
    ensures tt.Some? <==> df == Raw || df == Adif || df == Adts
    ensures tt == Some(TtMp4Raw) <==> df == Raw
  {
    match df
    case Raw => Some(TtMp4Raw)
    case Adif => Some(TtMp4Adif)
    case Adts => Some(TtMp4Adts)
    case _ => None
  }

  /** The AAC data format a transport type carries. */
  function DataFormatOf(tt: TransportType): (df: AacDataFormat)
  {
    match tt
    case TtMp4Raw => Raw
    case TtMp4Adif => Adif
    case TtMp4Adts => Adts
  }

  /** The mapping is a bijection between the three framings and the three transport types. */
  lemma TransportTypeRoundTrip(df: AacDataFormat, tt: TransportType)
    ensures TransportTypeOf(df).Some? ==> DataFormatOf(TransportTypeOf(df).value) == df
    ensures TransportTypeOf(DataFormatOf(tt)) == Some(tt)
  {
  }

  /** What the codec reports about the decoded stream. */
  datatype StreamInfo = StreamInfo(sampleRate: nat, numChannels: nat, frameSize: nat)

  /**
   * An opened codec instance, as the outcomes its calls will return: one
   * entry per Fill, per DecodeFrame and per SetParam call, in order, the
   * result of ConfigRaw, and the stream information it reports once it has
   * decoded something. Once a script is used up, Fill and SetParam succeed
   * and DecodeFrame reports that it needs more bits.
   */
  datatype Engine = Engine(
    fills: seq<AacError>,
    decodes: seq<AacError>,
    params: seq<AacError>,
    configRaw: AacError,
    info: Option<StreamInfo>)

  /** One aacDecoder_Fill call; a NULL handle is refused. */
  function FillStep(h: Option<Engine>): (r: (AacError, Option<Engine>))
    ensures h.None? ==> r == (InvalidHandle, None)
    ensures h.Some? ==> r.1.Some? && r.1.value == h.value.(fills := r.1.value.fills)
    ensures h.Some? && h.value.fills != [] ==> r == (h.value.fills[0], Some(h.value.(fills := h.value.fills[1..])))
    ensures h.Some? && h.value.fills == [] ==> r == (Ok, h)
  {
    if h.None? then (InvalidHandle, None)
    else if h.value.fills == [] then (Ok, h)
    else (h.value.fills[0], Some(h.value.(fills := h.value.fills[1..])))
  }

  /** One aacDecoder_DecodeFrame call. */
  function DecodeStep(e: Engine): (r: (AacError, Engine))
    ensures r.1 == e.(decodes := r.1.decodes)
    ensures e.decodes != [] ==> r == (e.decodes[0], e.(decodes := e.decodes[1..]))
    ensures e.decodes == [] ==> r == (NotEnoughBits, e)
  {
    if e.decodes == [] then (NotEnoughBits, e)
    else (e.decodes[0], e.(decodes := e.decodes[1..]))
  }

  /** One aacDecoder_SetParam call; a NULL handle is refused. */
  function SetParamStep(h: Option<Engine>): (r: (AacError, Option<Engine>))
    ensures h.None? ==> r == (InvalidHandle, None)
    ensures h.Some? && h.value.params != [] ==> r == (h.value.params[0], Some(h.value.(params := h.value.params[1..])))
    ensures h.Some? && h.value.params == [] ==> r == (Ok, h)
  {
    if h.None? then (InvalidHandle, None)
    else if h.value.params == [] then (Ok, h)
    else (h.value.params[0], Some(h.value.(params := h.value.params[1..])))
  }
}
