/**
 * The decoder record shared by every backend, its callback wrappers and the
 * default input filter: a frame is admitted when its format is supported and
 * its timestamp is strictly later than the last admitted one, unless no frame
 * has been admitted since creation or the last flush.
 */
module AdecCore {
  import opened AdecTypes

  /** `struct adec_decoder`: the fields the core and the backends update in place. */
  class Decoder {
    var ops: Option<Ops>
    var cbs: Callbacks
    var config: Config
    var configured: bool
    var decId: int
    var lastTimestamp: U64
    var counters: Counters
    /** The callbacks delivered to the application so far, in order. */
    var events: seq<AppEvent>

    /** The record `adec_new` fills right after allocating it. */
    constructor (config: Config, cbs: Callbacks, decId: int)
      ensures this.config == config && this.cbs == cbs && this.decId == decId
      ensures ops.None? && !configured && lastTimestamp == UINT64_MAX
      ensures counters == ZERO_COUNTERS && events == []
    {
      this.config := config;
      this.cbs := cbs;
      this.decId := decId;
      ops := None;
      configured := false;
      lastTimestamp := UINT64_MAX;
      counters := ZERO_COUNTERS;
      events := [];
    }

    /**
     * Hands a frame (or an error status) to the application. Only a
     * successful frame counts as delivered; nothing happens without a
     * frame_output callback.
     */
    method CallFrameOutputCb(status: int, frame: Option<Frame>)
      modifies this
      ensures !old(cbs.frameOutput) ==> events == old(events) && counters == old(counters)
      ensures old(cbs.frameOutput) ==> events == old(events) + [FrameOutput(status, frame)]
      ensures old(cbs.frameOutput) && status == 0 && frame.Some? ==>
                counters == old(counters).(output := old(counters).output + 1)
      ensures !(status == 0 && frame.Some?) ==> counters == old(counters)
      ensures ops == old(ops) && cbs == old(cbs) && config == old(config) && configured == old(configured)
      ensures decId == old(decId) && lastTimestamp == old(lastTimestamp)
    {
      if !cbs.frameOutput {
        return;
      }
      events := events + [FrameOutput(status, frame)];
      if status == 0 && frame.Some? {
        counters := counters.(output := counters.output + 1);
      }
    }

    /** Flush completion: the timestamp sentinel is re-armed whether or not a callback is set. */
    method CallFlushCb()
      modifies this
      ensures lastTimestamp == UINT64_MAX
      ensures events == old(events) + (if old(cbs.flush) then [FlushDone] else [])
      ensures ops == old(ops) && cbs == old(cbs) && config == old(config) && configured == old(configured)
      ensures decId == old(decId) && counters == old(counters)
    {
      lastTimestamp := UINT64_MAX;
      if !cbs.flush {
        return;
      }
      events := events + [FlushDone];
    }

    /** Stop completion: calls the stop callback when it is set and changes no decoder state. */
    method CallStopCb()
      modifies this
      ensures events == old(events) + (if old(cbs.stop) then [StopDone] else [])
      ensures ops == old(ops) && cbs == old(cbs) && config == old(config) && configured == old(configured)
      ensures decId == old(decId) && counters == old(counters) && lastTimestamp == old(lastTimestamp)
    {
      if !cbs.stop {
        return;
      }
      events := events + [StopDone];
    }

    /**
     * Records an accepted frame: its timestamp becomes the last one, the
     * admitted counter grows by one and the frame gets its input time.
     */
    method ConfirmFrame(frame: Frame, now: nat) returns (stamped: Frame)
      modifies this
      ensures lastTimestamp == frame.info.timestamp
      ensures counters == old(counters).(input := old(counters).input + 1)
      ensures stamped == AddAncillary(frame, KEY_INPUT_TIME, now)
      ensures ops == old(ops) && cbs == old(cbs) && config == old(config) && configured == old(configured)
      ensures decId == old(decId) && events == old(events)
    {
      lastTimestamp := frame.info.timestamp;
      counters := counters.(input := counters.input + 1);
      stamped := AddAncillary(frame, KEY_INPUT_TIME, now);
    }
  }

  /**
   * The internal admission check, a predicate of the frame's format and
   * timestamp and of the decoder's last timestamp: the format check comes
   * first, then strict monotonicity unless the sentinel is present.
   */
  function FilterInternal(format: Format, timestamp: U64, lastTimestamp: U64, supported: seq<Format>): (accept: bool)
    ensures !FormatIntersect(format, supported) ==> !accept
    ensures lastTimestamp == UINT64_MAX ==> (accept <==> FormatIntersect(format, supported))
    ensures FormatIntersect(format, supported) ==>
              (!accept <==> timestamp <= lastTimestamp && lastTimestamp != UINT64_MAX)
  {
    if !FormatIntersect(format, supported) then false
    else if timestamp <= lastTimestamp && lastTimestamp != UINT64_MAX then false
    else true
  }

  /**
   * The standalone default filter. It refuses a missing frame or decoder, a
   * frame whose information cannot be read and a failed supported-format
   * lookup (`lookupRet < 0`, the result of the backend's
   * get_supported_input_formats); otherwise it applies the internal check and
   * confirms the frame exactly when that check accepts it.
   */
  method DefaultInputFilter(frame: Option<Frame>, decoder: Decoder?, lookupRet: int, supported: seq<Format>, now: nat)
    returns (accept: bool, stamped: Option<Frame>)
    modifies decoder
    ensures accept <==>
              frame.Some? && decoder != null && frame.value.infoErr == 0 && lookupRet >= 0 &&
              FilterInternal(frame.value.format, frame.value.info.timestamp, old(decoder.lastTimestamp), supported)
    ensures !accept ==> stamped == frame && (decoder != null ==> unchanged(decoder))
    ensures accept ==> stamped == Some(AddAncillary(frame.value, KEY_INPUT_TIME, now))
    ensures accept ==> decoder.lastTimestamp == frame.value.info.timestamp
    ensures accept ==> decoder.counters == old(decoder.counters).(input := old(decoder.counters).input + 1)
    ensures accept ==> decoder.events == old(decoder.events) && decoder.configured == old(decoder.configured)
    ensures accept ==>
              decoder.ops == old(decoder.ops) && decoder.cbs == old(decoder.cbs) &&
              decoder.config == old(decoder.config) && decoder.decId == old(decoder.decId)
  {
    stamped := frame;
    if frame.None? || decoder == null {
      return false, stamped;
    }
    if frame.value.infoErr != 0 {
      return false, stamped;
    }
    if lookupRet < 0 {
      return false, stamped;
    }
    accept := FilterInternal(frame.value.format, frame.value.info.timestamp, decoder.lastTimestamp, supported);
    if accept {
      var f := decoder.ConfirmFrame(frame.value, now);
      stamped := Some(f);
    }
  }

  /**
   * A run of pushes through the filter with no flush in between: the
   * timestamps that are admitted, and the last timestamp afterwards.
   */
  function Admit(timestamps: seq<U64>, format: Format, last: U64, supported: seq<Format>): (r: (seq<U64>, U64))
    decreases |timestamps|
  {
    if timestamps == [] then ([], last)
    else if FilterInternal(format, timestamps[0], last, supported) then
      var rest := Admit(timestamps[1..], format, timestamps[0], supported);
      ([timestamps[0]] + rest.0, rest.1)
    else Admit(timestamps[1..], format, last, supported)
  }

  predicate StrictlyIncreasing(s: seq<U64>)
  {
    forall i, j :: 0 <= i < j < |s| ==> s[i] < s[j]
  }

  /**
   * As long as no frame carries the sentinel value itself, the admitted
   * timestamps are strictly increasing, all later than the last timestamp
   * held before (unless that was the sentinel), and the decoder ends up
   * holding the last admitted one.
   */
  lemma {:induction false} AdmitStrictlyIncreasing(timestamps: seq<U64>, format: Format, last: U64, supported: seq<Format>)
    requires forall i :: 0 <= i < |timestamps| ==> timestamps[i] != UINT64_MAX
    ensures var r := Admit(timestamps, format, last, supported);
      StrictlyIncreasing(r.0) &&
      (last != UINT64_MAX ==> forall i :: 0 <= i < |r.0| ==> last < r.0[i]) &&
      (r.0 == [] ==> r.1 == last) &&
      (r.0 != [] ==> r.1 == r.0[|r.0| - 1])
    decreases |timestamps|
  {
    if timestamps != [] {
      var t := timestamps[0];
      if FilterInternal(format, t, last, supported) {
        AdmitStrictlyIncreasing(timestamps[1..], format, t, supported);
        var rest := Admit(timestamps[1..], format, t, supported);
        var s := [t] + rest.0;
        forall i, j | 0 <= i < j < |s| ensures s[i] < s[j] {
          assert s[j] == rest.0[j - 1];
          if i > 0 {
            assert s[i] == rest.0[i - 1];
          }
        }
      } else {
        AdmitStrictlyIncreasing(timestamps[1..], format, last, supported);
      }
    }
  }

  /** Whatever the timestamps, the decoder ends up holding the last admitted one, or the one it held before. */
  lemma {:induction false} AdmitLast(timestamps: seq<U64>, format: Format, last: U64, supported: seq<Format>)
    ensures var r := Admit(timestamps, format, last, supported);
      (r.0 == [] ==> r.1 == last) && (r.0 != [] ==> r.1 == r.0[|r.0| - 1])
    decreases |timestamps|
  {
    if timestamps != [] {
      var t := timestamps[0];
      if FilterInternal(format, t, last, supported) {
        AdmitLast(timestamps[1..], format, t, supported);
      } else {
        AdmitLast(timestamps[1..], format, last, supported);
      }
    }
  }

  /** One more push after a run: it is filtered against the last timestamp the run left. */
  lemma {:induction false} AdmitAppend(timestamps: seq<U64>, t: U64, format: Format, last: U64, supported: seq<Format>)
    ensures var r := Admit(timestamps, format, last, supported);
      Admit(timestamps + [t], format, last, supported) ==
        if FilterInternal(format, t, r.1, supported) then (r.0 + [t], t) else r
    decreases |timestamps|
  {
    if timestamps == [] {
      var none: seq<U64> := [];
      assert timestamps + [t] == [t] && [t][1..] == none && none + [t] == [t];
      assert Admit(timestamps, format, last, supported) == (none, last);
      if FilterInternal(format, t, last, supported) {
        assert Admit([t], format, last, supported) == ([t] + Admit(none, format, t, supported).0, t);
        assert [t] + none == [t];
      } else {
        assert Admit([t], format, last, supported) == Admit(none, format, last, supported);
      }
    } else {
      var t0 := timestamps[0];
      assert (timestamps + [t])[0] == t0 && (timestamps + [t])[1..] == timestamps[1..] + [t];
      if FilterInternal(format, t0, last, supported) {
        AdmitAppend(timestamps[1..], t, format, t0, supported);
        var rest := Admit(timestamps[1..], format, t0, supported);
        assert [t0] + (rest.0 + [t]) == ([t0] + rest.0) + [t];
      } else {
        AdmitAppend(timestamps[1..], t, format, last, supported);
      }
    }
  }

  /**
   * A frame stamped UINT64_MAX re-arms the sentinel: after a run whose last
   * admitted frame carries that value, the next frame of a supported format
   * is admitted whatever its timestamp.
   */
  lemma MaxTimestampRearmsSentinel(timestamps: seq<U64>, t: U64, format: Format, last: U64, supported: seq<Format>)
    requires FormatIntersect(format, supported)
    requires var admitted := Admit(timestamps, format, last, supported).0;
      admitted != [] && admitted[|admitted| - 1] == UINT64_MAX
    ensures var r := Admit(timestamps, format, last, supported);
      Admit(timestamps + [t], format, last, supported) == (r.0 + [t], t)
  {
    AdmitLast(timestamps, format, last, supported);
    AdmitAppend(timestamps, t, format, last, supported);
  }

  /** An equal or earlier timestamp is refused, and the admitted count does not grow. */
  lemma NonMonotonicRejected(format: Format, earlier: U64, last: U64, supported: seq<Format>)
    requires last != UINT64_MAX && earlier <= last
    ensures Admit([earlier], format, last, supported) == ([], last)
  {
  }
}
