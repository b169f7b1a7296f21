/**
 * The FDK AAC backend's static data: the table of supported input formats
 * (AAC-LC, 16-bit, twelve sample rates, mono or stereo, raw or ADTS framing)
 * and the PCM output format and buffer size derived from the codec's stream
 * information.
 */
module FdkAacFormats {
  import opened AdecTypes
  import opened FdkAacEngine

  const NB_SUPPORTED_FORMATS: nat := 48

  /** The sample rates of the table, in the order the table lists them. */
  const SAMPLE_RATES: seq<nat> := [8000, 11025, 12000, 16000, 22050, 24000, 32000, 44100, 48000, 64000, 88200, 96000]

  /** One `adef_aac_lc_16b_<rate>hz_<mono|stereo>_<framing>` constant. */
  function AacLc16(rate: nat, channels: nat, df: AacDataFormat): Format
  {
    Format(AacLc, rate, channels, 16, false, false, false, df)
  }

  /**
   * The table, 48 entries: for each rate in turn its mono then its stereo
   * entry, first all raw, then all ADTS.
   */
  function SupportedFormats(): (t: seq<Format>)
    ensures |t| == NB_SUPPORTED_FORMATS
  {
    seq(NB_SUPPORTED_FORMATS, i requires 0 <= i < NB_SUPPORTED_FORMATS => EntryAt(i))
  }

  /**
   * Entry i of the table: raw for the first 24 and ADTS for the last 24;
   * within each half, slot j is AAC-LC 16-bit at rate SAMPLE_RATES[j / 2],
   * mono for even j and stereo for odd j.
   */
  function EntryAt(i: nat): Format
    requires i < NB_SUPPORTED_FORMATS
  {
    var j := if i < 24 then i else i - 24;
    AacLc16(SAMPLE_RATES[j / 2], 1 + j % 2, if i < 24 then Raw else Adts)
  }

  /** The 48 entries are pairwise distinct. */
  lemma SupportedFormatsDistinct()
    ensures forall i, j :: 0 <= i < j < |SupportedFormats()| ==> SupportedFormats()[i] != SupportedFormats()[j]
  {
    forall i, j | 0 <= i < j < NB_SUPPORTED_FORMATS ensures SupportedFormats()[i] != SupportedFormats()[j] {
      EntriesDistinct(i, j);
    }
  }

  lemma EntriesDistinct(i: nat, j: nat)
    requires i < j < NB_SUPPORTED_FORMATS
    ensures EntryAt(i) != EntryAt(j)
  {
    var a := if i < 24 then i else i - 24;
    var b := if j < 24 then j else j - 24;
    if (i < 24) == (j < 24) && a % 2 == b % 2 {
      assert a < b;
      assert a / 2 != b / 2;
      RatesDistinct(a / 2, b / 2);
    }
  }

  lemma RatesDistinct(a: nat, b: nat)
    requires a < |SAMPLE_RATES| && b < |SAMPLE_RATES| && a != b
    ensures SAMPLE_RATES[a] != SAMPLE_RATES[b]
  {
  }

  /** A format of the shape the table lists: AAC-LC, 16-bit, a listed rate, mono or stereo, raw or ADTS. */
  predicate IsTableShape(f: Format)
  {
    f.encoding == AacLc && f.bitDepth == 16 && f.sampleRate in SAMPLE_RATES &&
    (f.channelCount == 1 || f.channelCount == 2) && (f.dataFormat == Raw || f.dataFormat == Adts) &&
    !f.interleaved && !f.signedVal && !f.littleEndian
  }

  /**
   * A format is in the table exactly when it is AAC-LC, 16-bit, at one of
   * the twelve rates, mono or stereo, raw or ADTS (with the table's PCM
   * flags, all clear).
   */
  lemma SupportedFormatsMembership(f: Format)
    ensures f in SupportedFormats() <==> IsTableShape(f)
  {
    if IsTableShape(f) {
      var i := EntryIndex(f);
      assert SupportedFormats()[i] == f;
    }
    if f in SupportedFormats() {
      var i :| 0 <= i < NB_SUPPORTED_FORMATS && SupportedFormats()[i] == f;
      EntryShape(i);
    }
  }

  lemma EntryShape(i: nat)
    requires i < NB_SUPPORTED_FORMATS
    ensures IsTableShape(EntryAt(i))
  {
    var j := if i < 24 then i else i - 24;
    assert SAMPLE_RATES[j / 2] in SAMPLE_RATES;
  }

  /** The position of a value in a sequence that holds it. */
  function IndexOf(xs: seq<nat>, x: nat): (k: nat)
    requires x in xs
    ensures k < |xs| && xs[k] == x
  {
    if xs[0] == x then 0 else 1 + IndexOf(xs[1..], x)
  }

  /** Where a format of the table's shape sits in the table. */
  function EntryIndex(f: Format): (i: nat)
    requires IsTableShape(f)
    ensures i < NB_SUPPORTED_FORMATS && EntryAt(i) == f
  {
    var k := IndexOf(SAMPLE_RATES, f.sampleRate);
    var c: nat := f.channelCount - 1;
    assert f == AacLc16(SAMPLE_RATES[k], c + 1, f.dataFormat);
    SlotIndex(k, c, f.dataFormat)
  }

  /** The index of slot 2k + c of the raw or of the ADTS half: rate k with c + 1 channels. */
  function SlotIndex(k: nat, c: nat, df: AacDataFormat): (i: nat)
    requires k < |SAMPLE_RATES| && c < 2 && (df == Raw || df == Adts)
    ensures i < NB_SUPPORTED_FORMATS && EntryAt(i) == AacLc16(SAMPLE_RATES[k], c + 1, df)
  {
    assert (2 * k + c) / 2 == k && (2 * k + c) % 2 == c;
    (if df == Raw then 0 else 24) + 2 * k + c
  }

  /** get_supported_input_formats: the table and its size, which is at least one. */
  function GetSupportedInputFormats(): (r: (int, seq<Format>))
    ensures r.0 == |r.1| == NB_SUPPORTED_FORMATS && r.0 >= 1
    ensures r.1 == SupportedFormats()
  {
    (NB_SUPPORTED_FORMATS, SupportedFormats())
  }

  /** The output format latched from the stream information: interleaved signed little-endian 16-bit PCM. */
  function PcmOutputFormat(info: StreamInfo): (f: Format)
    ensures f.encoding == Pcm && f.bitDepth == 16 && f.interleaved && f.signedVal && f.littleEndian
    ensures f.sampleRate == info.sampleRate && f.channelCount == info.numChannels
    ensures f.dataFormat == DataFormatUnknown
  {
    Format(Pcm, info.sampleRate, info.numChannels, 16, true, true, true, DataFormatUnknown)
  }

  /**
   * The output buffer size in bytes, channel_count * bit_depth / 8 *
   * frameSize: two bytes per sample for each channel of each of the
   * frameSize samples of a decoded unit.
   */
  function OutputSize(info: StreamInfo): (size: nat)
    ensures size == 2 * info.numChannels * info.frameSize
    ensures size == PcmOutputFormat(info).channelCount * (PcmOutputFormat(info).bitDepth / 8) * info.frameSize
  {
    info.numChannels * 16 / 8 * info.frameSize
  }
}
