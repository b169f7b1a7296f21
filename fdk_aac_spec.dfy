/**
 * The FDK AAC backend's decoding thread as a state machine over values: the
 * state the thread and its callers share, and one function per step of the
 * thread (decode one frame, drain the input queue, start and complete a
 * flush, one turn of the worker loop), plus the main-loop side (mailbox
 * dispatch, idle calls, output delivery). The class in module FdkAac is
 * proved to perform exactly these steps.
 */
module FdkAacSpec {
  import opened AdecTypes
  import opened FdkAacEngine
  import opened FdkAacFormats

  /** Mailbox messages from the decoding thread to the main loop. */
  const MSG_FLUSH: char := 'f'
  const MSG_STOP: char := 's'

  /** The input queue, the four control flags and the mailbox: what the decode path never touches. */
  datatype Control = Control(
    inQueue: seq<Frame>,
    shouldStop: bool,
    flush: bool,
    flushing: bool,
    flushDiscard: bool,
    mbox: seq<char>)

  /** The codec handle and the output format latched from its stream information. */
  datatype Codec = Codec(
    handle: Option<Engine>,
    outputFormat: Format,
    outputSize: nat,
    outputFormatValid: bool)

  /**
   * The fields of `struct adec_fdk_aac` that the decoding thread reads or
   * writes, with the counters of the base record. The four control flags are
   * atomics in the source; here they are plain values.
   */
  datatype WorkerState = WorkerState(
    ctl: Control,
    codec: Codec,
    outQueue: seq<Frame>,
    counters: Counters)

  /** The output format and size, computed once from the stream information. */
  function Latch(c: Codec, info: StreamInfo): Codec
  {
    c.(outputFormat := PcmOutputFormat(info), outputSize := OutputSize(info), outputFormatValid := true)
  }

  /**
   * get_stream_info: a latch. Once the output format is valid nothing is
   * recomputed; otherwise it is computed from the codec's stream information,
   * and a codec that reports none is an error.
   */
  function GetStreamInfoSpec(c: Codec): (r: (int, Codec))
    ensures c.outputFormatValid ==> r == (0, c)
    ensures r.0 == 0 <==> r.1.outputFormatValid
    ensures r.0 != 0 ==> r == (-EINVAL, c)
    ensures !c.outputFormatValid && r.0 == 0 ==>
              c.handle.Some? && c.handle.value.info.Some? &&
              r.1.outputFormat == PcmOutputFormat(c.handle.value.info.value) &&
              r.1.outputSize == OutputSize(c.handle.value.info.value)
    ensures r.1.handle == c.handle
  {
    if c.outputFormatValid then (0, c)
    else if c.handle.None? || c.handle.value.info.None? then (-EINVAL, c)
    else (0, Latch(c, c.handle.value.info.value))
  }

  /**
   * A decoded unit: the input frame's information, the PCM output format,
   * a copy of the input frame's ancillary data, a buffer of the output size
   * and the output time.
   */
  function OutputFrame(inFrame: Frame, format: Format, size: nat, now: nat): (f: Frame)
    ensures f.info == inFrame.info && f.format == format && f.size == size
    ensures f.infoErr == 0 && f.bufferErr == 0
    ensures f.ancillary.Keys == inFrame.ancillary.Keys + {KEY_OUTPUT_TIME}
    ensures forall k :: k in inFrame.ancillary ==> f.ancillary[k] == inFrame.ancillary[k]
  {
    AddAncillary(Frame(inFrame.info, format, inFrame.ancillary, size, 0, 0), KEY_OUTPUT_TIME, now)
  }

  /**
   * One decoded unit: count it as pulled, latch the output format if it is
   * not yet valid (a codec without stream information is an error), then
   * queue its output frame.
   */
  function DecodeUnit(s: WorkerState, inFrame: Frame, now: nat): (r: (int, WorkerState))
    ensures r.0 == 0 || r.0 == -EINVAL
    ensures r.1.ctl == s.ctl && r.1.codec.handle == s.codec.handle
    ensures r.1.counters == s.counters.(pulled := s.counters.pulled + 1)
    ensures r.0 == 0 ==> r.1.codec.outputFormatValid
    ensures r.0 == 0 ==> r.1.outQueue == s.outQueue + [OutputFrame(inFrame, r.1.codec.outputFormat, r.1.codec.outputSize, now)]
    ensures r.0 != 0 ==> r.1.outQueue == s.outQueue
    ensures s.codec.outputFormatValid ==> r.0 == 0 && r.1.codec == s.codec
  {
    var info := GetStreamInfoSpec(s.codec);
    var s1 := s.(codec := info.1, counters := s.counters.(pulled := s.counters.pulled + 1));
    if info.0 != 0 then (info.0, s1)
    else (0, s1.(outQueue := s1.outQueue + [OutputFrame(inFrame, info.1.outputFormat, info.1.outputSize, now)]))
  }

  /**
   * The decode loop of decode_frame, from the given point on: decode a unit,
   * stop on NOT_ENOUGH_BITS (an error only if nothing was decoded in this
   * call) or on any other codec error, otherwise handle the decoded unit and
   * go on.
   */
  function DecodeLoop(s: WorkerState, inFrame: Frame, hasDecoded: bool, now: nat): (r: (int, WorkerState))
    requires s.codec.handle.Some?
    ensures r.0 == 0 || r.0 == -ENOSPC || r.0 == -EPROTO || r.0 == -EINVAL
    ensures r.0 == -ENOSPC ==> !hasDecoded && r.1.outQueue == s.outQueue
    ensures r.1.ctl == s.ctl && r.1.codec.handle.Some?
    ensures r.1.counters == s.counters.(pulled := r.1.counters.pulled)
    ensures |s.outQueue| <= |r.1.outQueue| && r.1.outQueue[..|s.outQueue|] == s.outQueue
    ensures r.1.counters.pulled - s.counters.pulled >= |r.1.outQueue| - |s.outQueue|
    ensures s.codec.outputFormatValid ==>
              r.1.codec.outputFormatValid && r.1.codec.outputFormat == s.codec.outputFormat && r.1.codec.outputSize == s.codec.outputSize
    decreases |s.codec.handle.value.decodes|
  {
    var step := DecodeStep(s.codec.handle.value);
    var s1 := s.(codec := s.codec.(handle := Some(step.1)));
    if step.0 == NotEnoughBits then (if hasDecoded then 0 else -ENOSPC, s1)
    else if step.0 != Ok then (-EPROTO, s1)
    else
      var u := DecodeUnit(s1, inFrame, now);
      if u.0 != 0 then u
      else
        var r := DecodeLoop(u.1, inFrame, true, now);
        assert r.1.outQueue[..|s.outQueue|] == s.outQueue by {
          assert r.1.outQueue[..|u.1.outQueue|] == u.1.outQueue;
          assert u.1.outQueue[..|s.outQueue|] == s.outQueue;
        }
        r
  }

  /** The output frames from position n on carry the input frame's information and the state's latched output format. */
  ghost predicate QueuedFrom(n: nat, t: WorkerState, inFrame: Frame)
  {
    forall i :: n <= i < |t.outQueue| ==>
      t.outQueue[i].info == inFrame.info && t.outQueue[i].format == t.codec.outputFormat && t.codec.outputFormatValid
  }

  /** Every frame the decode loop queues carries the input frame's information and the latched output format. */
  lemma {:induction false} DecodeLoopOutputs(s: WorkerState, inFrame: Frame, hasDecoded: bool, now: nat)
    requires s.codec.handle.Some?
    ensures QueuedFrom(|s.outQueue|, DecodeLoop(s, inFrame, hasDecoded, now).1, inFrame)
    decreases |s.codec.handle.value.decodes|
  {
    var step := DecodeStep(s.codec.handle.value);
    var s1 := s.(codec := s.codec.(handle := Some(step.1)));
    if step.0 == Ok {
      var u := DecodeUnit(s1, inFrame, now);
      if u.0 == 0 {
        var r := DecodeLoop(u.1, inFrame, true, now);
        assert DecodeLoop(s, inFrame, hasDecoded, now) == r;
        DecodeLoopOutputs(u.1, inFrame, true, now);
        assert r.1.outQueue[..|u.1.outQueue|] == u.1.outQueue;
        assert r.1.outQueue[|s.outQueue|] == u.1.outQueue[|s.outQueue|];
      }
    }
  }

  /** Number of units the codec decodes before its first non-OK outcome. */
  function LeadingOk(d: seq<AacError>): (n: nat)
    ensures n <= |d|
    ensures n < |d| ==> d[n] != Ok
    decreases |d|
  {
    if d == [] || d[0] != Ok then 0 else 1 + LeadingOk(d[1..])
  }

  /** The outcomes before the first non-OK one are all OK. */
  lemma {:induction false} LeadingOkAreOk(d: seq<AacError>)
    ensures forall i :: 0 <= i < LeadingOk(d) ==> d[i] == Ok
    decreases |d|
  {
    if d != [] && d[0] == Ok {
      LeadingOkAreOk(d[1..]);
      assert forall i :: 1 <= i < LeadingOk(d) ==> d[i] == d[1..][i - 1];
    }
  }

  /** How many decode outcomes one decode loop uses up: the OK ones and the one that stops it. */
  function Consumed(d: seq<AacError>): (c: nat)
    ensures c <= |d|
  {
    var n := LeadingOk(d);
    if n < |d| then n + 1 else n
  }

  /**
   * The status a decode loop ends with: -EPROTO for a codec error other than
   * NOT_ENOUGH_BITS, otherwise 0 if some unit was decoded in this call and
   * -ENOSPC if none was.
   */
  function LoopStatus(d: seq<AacError>, hasDecoded: bool): (ret: int)
    ensures ret == -EPROTO <==> LeadingOk(d) < |d| && d[LeadingOk(d)] != NotEnoughBits
    ensures ret == -ENOSPC <==> !hasDecoded && LeadingOk(d) == 0 && (d == [] || d[0] == NotEnoughBits)
    ensures ret == 0 || ret == -ENOSPC || ret == -EPROTO
  {
    var n := LeadingOk(d);
    if n < |d| && d[n] != NotEnoughBits then -EPROTO
    else if n > 0 || hasDecoded then 0 else -ENOSPC
  }

  function Repeat(f: Frame, n: nat): (s: seq<Frame>)
    ensures |s| == n && forall i :: 0 <= i < n ==> s[i] == f
  {
    if n == 0 then [] else [f] + Repeat(f, n - 1)
  }

  /** The state after a decode loop that decoded n units with the codec state c and ended with the decode script d. */
  function LoopResult(s: WorkerState, c: Codec, d: seq<AacError>, out: Frame, n: nat): WorkerState
    requires c.handle.Some?
  {
    s.(codec := c.(handle := Some(c.handle.value.(decodes := d))),
       outQueue := s.outQueue + Repeat(out, n),
       counters := s.counters.(pulled := s.counters.pulled + n))
  }

  /** The codec the first decoded unit leaves: the latched one, or the newly latched one. */
  function LatchedCodec(c: Codec): Codec
    requires c.handle.Some? && (c.outputFormatValid || c.handle.value.info.Some?)
  {
    if c.outputFormatValid then c else Latch(c, c.handle.value.info.value)
  }

  /**
   * An OK outcome whose unit gets an output format: the loop queues one
   * output frame, counts it as pulled and goes on from the next outcome.
   */
  lemma OkUnitStep(s: WorkerState, inFrame: Frame, hasDecoded: bool, now: nat)
    requires s.codec.handle.Some? && s.codec.handle.value.decodes != [] && s.codec.handle.value.decodes[0] == Ok
    requires s.codec.outputFormatValid || s.codec.handle.value.info.Some?
    ensures var c := LatchedCodec(s.codec);
      DecodeLoop(s, inFrame, hasDecoded, now) ==
        DecodeLoop(LoopResult(s, c, s.codec.handle.value.decodes[1..], OutputFrame(inFrame, c.outputFormat, c.outputSize, now), 1),
                   inFrame, true, now)
  {
    var e := s.codec.handle.value;
    var c := LatchedCodec(s.codec);
    var out := OutputFrame(inFrame, c.outputFormat, c.outputSize, now);
    var s1 := s.(codec := s.codec.(handle := Some(e.(decodes := e.decodes[1..]))));
    assert DecodeStep(e) == (Ok, e.(decodes := e.decodes[1..]));
    assert GetStreamInfoSpec(s1.codec).1 == c.(handle := s1.codec.handle);
    assert Repeat(out, 1) == [out];
  }

  /** Two decode loop results in a row, with the same output frame, are one. */
  lemma LoopResultCompose(s: WorkerState, c: Codec, x: seq<AacError>, y: seq<AacError>, out: Frame, m: nat, n: nat)
    requires c.handle.Some?
    ensures var s4 := LoopResult(s, c, x, out, m);
      LoopResult(s4, s4.codec, y, out, n) == LoopResult(s, c, y, out, m + n)
  {
    assert Repeat(out, m) + Repeat(out, n) == Repeat(out, m + n);
  }

  /**
   * Shifting one OK outcome into the queued output: the loop's result from
   * the next outcome on, with one output frame already queued, is its result
   * from this one.
   */
  lemma ShiftOk(s: WorkerState, c: Codec, d: seq<AacError>, out: Frame, hasDecoded: bool)
    requires c.handle.Some? && d != [] && d[0] == Ok
    ensures var s4 := LoopResult(s, c, d[1..], out, 1);
      (LoopStatus(d[1..], true), LoopResult(s4, s4.codec, d[1..][Consumed(d[1..])..], out, LeadingOk(d[1..]))) ==
      (LoopStatus(d, hasDecoded), LoopResult(s, c, d[Consumed(d)..], out, LeadingOk(d)))
  {
    OkPrefixShift(d, hasDecoded);
    var s4 := LoopResult(s, c, d[1..], out, 1);
    var rest := d[Consumed(d)..];
    LoopResultCompose(s, c, d[1..], rest, out, 1, LeadingOk(d[1..]));
    assert LoopResult(s4, s4.codec, rest, out, LeadingOk(d[1..])) == LoopResult(s, c, rest, out, LeadingOk(d));
  }

  /** One leading OK outcome more: one more unit before the loop stops, and the same status once a unit was decoded. */
  lemma OkPrefixShift(d: seq<AacError>, hasDecoded: bool)
    requires d != [] && d[0] == Ok
    ensures LeadingOk(d) == LeadingOk(d[1..]) + 1
    ensures Consumed(d) == Consumed(d[1..]) + 1
    ensures LoopStatus(d[1..], true) == LoopStatus(d, hasDecoded)
    ensures d[1..][Consumed(d[1..])..] == d[Consumed(d)..]
  {
    assert LeadingOk(d) == LeadingOk(d[1..]) + 1;
    assert |d[1..]| + 1 == |d|;
  }

  /**
   * With the output format latched, one decode loop queues one identical
   * output frame per OK outcome before the first other outcome, counts each
   * of them as pulled, and ends with LoopStatus.
   */
  lemma {:induction false} DecodeLoopLatched(s: WorkerState, inFrame: Frame, hasDecoded: bool, now: nat)
    requires s.codec.handle.Some? && s.codec.outputFormatValid
    ensures var d := s.codec.handle.value.decodes;
      DecodeLoop(s, inFrame, hasDecoded, now) ==
        (LoopStatus(d, hasDecoded),
         LoopResult(s, s.codec, d[Consumed(d)..],
                    OutputFrame(inFrame, s.codec.outputFormat, s.codec.outputSize, now), LeadingOk(d)))
    decreases |s.codec.handle.value.decodes|
  {
    var d := s.codec.handle.value.decodes;
    if d == [] || d[0] != Ok {
      assert s.outQueue + Repeat(inFrame, 0) == s.outQueue;
      if d != [] {
        assert Consumed(d) == 1;
      }
    } else {
      OkUnitStep(s, inFrame, hasDecoded, now);
      var out := OutputFrame(inFrame, s.codec.outputFormat, s.codec.outputSize, now);
      var s4 := LoopResult(s, s.codec, d[1..], out, 1);
      assert LatchedCodec(s.codec) == s.codec;
      assert s4.codec.handle.value.decodes == d[1..];
      assert OutputFrame(inFrame, s4.codec.outputFormat, s4.codec.outputSize, now) == out;
      DecodeLoopLatched(s4, inFrame, true, now);
      ShiftOk(s, s.codec, d, out, hasDecoded);
    }
  }

  /**
   * Before the output format is latched, the first decoded unit latches it
   * from the codec's stream information (or, when the codec reports none,
   * ends the loop with -EINVAL after counting that unit); from then on the
   * loop is the latched one.
   */
  lemma DecodeLoopUnlatched(s: WorkerState, inFrame: Frame, hasDecoded: bool, now: nat)
    requires s.codec.handle.Some? && !s.codec.outputFormatValid
    ensures var e := s.codec.handle.value;
      var d := e.decodes;
      var n := LeadingOk(d);
      var r := DecodeLoop(s, inFrame, hasDecoded, now);
      (n == 0 ==> r == (LoopStatus(d, hasDecoded), LoopResult(s, s.codec, d[Consumed(d)..], inFrame, 0))) &&
      (n > 0 && e.info.None? ==> r == (-EINVAL, LoopResult(s, s.codec, d[1..], inFrame, 0).(counters := s.counters.(pulled := s.counters.pulled + 1)))) &&
      (n > 0 && e.info.Some? ==>
         var l := Latch(s.codec, e.info.value);
         r == (LoopStatus(d, hasDecoded), LoopResult(s, l, d[Consumed(d)..], OutputFrame(inFrame, l.outputFormat, l.outputSize, now), n)))
  {
    var e := s.codec.handle.value;
    var d := e.decodes;
    assert s.outQueue + Repeat(inFrame, 0) == s.outQueue;
    if d != [] && d[0] == Ok {
      if e.info.Some? {
        var l := Latch(s.codec, e.info.value);
        var out := OutputFrame(inFrame, l.outputFormat, l.outputSize, now);
        OkUnitStep(s, inFrame, hasDecoded, now);
        var s4 := LoopResult(s, l, d[1..], out, 1);
        assert s4.codec.handle.value.decodes == d[1..];
        assert OutputFrame(inFrame, s4.codec.outputFormat, s4.codec.outputSize, now) == out;
        DecodeLoopLatched(s4, inFrame, true, now);
        ShiftOk(s, l, d, out, hasDecoded);
      }
    } else if d != [] {
      assert Consumed(d) == 1;
    }
  }

  /** What decode_frame returns, the input frame as it is afterwards, and the new state. */
  datatype DecodeOutcome = DecodeOutcome(ret: int, stamped: Frame, state: WorkerState)

  /**
   * decode_frame for a frame: read its information, check its format against
   * the table, get its buffer, push it into the codec, stamp its dequeue
   * time, count it as pushed, then run the decode loop. A missing codec
   * handle makes the codec report an invalid handle.
   */
  function DecodeSpec(s: WorkerState, f: Frame, now: nat): (r: DecodeOutcome)
    ensures r.ret <= 0
    ensures r.state.ctl == s.ctl
    ensures r.stamped.(ancillary := f.ancillary) == f
    ensures f.infoErr < 0 ==> r == DecodeOutcome(f.infoErr, f, s)
    ensures f.infoErr == 0 && !FormatIntersect(f.format, SupportedFormats()) ==> r == DecodeOutcome(-ENOSYS, f, s)
    ensures f.infoErr == 0 && FormatIntersect(f.format, SupportedFormats()) && f.bufferErr != 0 ==> r == DecodeOutcome(f.bufferErr, f, s)
    ensures (r.ret == 0 || r.ret == -ENOSPC) && f.infoErr == 0 && f.bufferErr == 0 ==>
              FormatIntersect(f.format, SupportedFormats()) &&
              r.state.counters.pushed == s.counters.pushed + 1 &&
              r.stamped == AddAncillary(f, KEY_DEQUEUE_TIME, now)
    ensures r.state.counters.input == s.counters.input && r.state.counters.output == s.counters.output
    ensures r.state.counters.pushed <= s.counters.pushed + 1
    ensures |s.outQueue| <= |r.state.outQueue| && r.state.outQueue[..|s.outQueue|] == s.outQueue
    ensures forall i :: |s.outQueue| <= i < |r.state.outQueue| ==> r.state.outQueue[i].info == f.info
  {
    if f.infoErr < 0 then DecodeOutcome(f.infoErr, f, s)
    else if !FormatIntersect(f.format, SupportedFormats()) then DecodeOutcome(-ENOSYS, f, s)
    else if f.bufferErr != 0 then DecodeOutcome(f.bufferErr, f, s)
    else PushAndDecode(s, f, now)
  }

  /**
   * The part of decode_frame after the checks: push the frame's bytes into
   * the codec (a failure is a protocol error), stamp its dequeue time, count
   * it as pushed and run the decode loop.
   */
  function PushAndDecode(s: WorkerState, f: Frame, now: nat): (r: DecodeOutcome)
    ensures r.state.ctl == s.ctl
    ensures r.stamped == f || r.stamped == AddAncillary(f, KEY_DEQUEUE_TIME, now)
    ensures !FillSpec(s, f).0 ==> r == DecodeOutcome(-EPROTO, f, FillSpec(s, f).1) && r.state.counters == s.counters
    ensures r.ret == 0 || r.ret == -ENOSPC || r.ret == -EPROTO || r.ret == -EINVAL
    ensures (r.ret == 0 || r.ret == -ENOSPC) ==>
              r.state.counters.pushed == s.counters.pushed + 1 && r.stamped == AddAncillary(f, KEY_DEQUEUE_TIME, now)
    ensures r.state.counters.input == s.counters.input && r.state.counters.output == s.counters.output
    ensures r.state.counters.pushed <= s.counters.pushed + 1
    ensures |s.outQueue| <= |r.state.outQueue| && r.state.outQueue[..|s.outQueue|] == s.outQueue
    ensures forall i :: |s.outQueue| <= i < |r.state.outQueue| ==> r.state.outQueue[i].info == f.info
  {
    var fill := FillSpec(s, f);
    if !fill.0 then DecodeOutcome(-EPROTO, f, fill.1)
    else DecodePushed(fill.1, f, now)
  }

  /** Filling the codec with the frame's buffer; an empty buffer needs no fill call. Only the codec changes. */
  function FillSpec(s: WorkerState, f: Frame): (r: (bool, WorkerState))
    ensures r.1 == s.(codec := s.codec.(handle := r.1.codec.handle))
    ensures f.size == 0 ==> r == (true, s)
  {
    var fill := if f.size > 0 then FillStep(s.codec.handle) else (Ok, s.codec.handle);
    (fill.0 == Ok, s.(codec := s.codec.(handle := fill.1)))
  }

  /**
   * The frame once in the codec: stamp its dequeue time, count it as pushed,
   * then run the decode loop (a missing codec handle is a protocol error).
   */
  function DecodePushed(s: WorkerState, f: Frame, now: nat): (r: DecodeOutcome)
    ensures r.state.ctl == s.ctl
    ensures r.stamped == AddAncillary(f, KEY_DEQUEUE_TIME, now)
    ensures r.ret == 0 || r.ret == -ENOSPC || r.ret == -EPROTO || r.ret == -EINVAL
    ensures r.state.counters == s.counters.(pushed := s.counters.pushed + 1, pulled := r.state.counters.pulled)
    ensures |s.outQueue| <= |r.state.outQueue| && r.state.outQueue[..|s.outQueue|] == s.outQueue
    ensures forall i :: |s.outQueue| <= i < |r.state.outQueue| ==> r.state.outQueue[i].info == f.info
  {
    var g := AddAncillary(f, KEY_DEQUEUE_TIME, now);
    var s2 := s.(counters := s.counters.(pushed := s.counters.pushed + 1));
    if s2.codec.handle.None? then DecodeOutcome(-EPROTO, g, s2)
    else
      var d := DecodeLoop(s2, g, false, now);
      DecodeLoopOutputs(s2, g, false, now);
      DecodeOutcome(d.0, g, d.1)
  }


  /** The status start_flush reports when clearing the codec buffer fails. */
  function StartFlushStatus(err: AacError): (ret: int)
    ensures err == Ok ==> ret == 0
    ensures err != Ok ==> ret == -EPROTO && ret < 0
  {
    if err == Ok then 0 else -EPROTO
  }

  /** The same status as the source computes it: the negated error is negated again on return. */
  function StartFlushStatusAsWritten(err: AacError): (ret: int)
    ensures err == Ok ==> ret == 0
  {
    if err == Ok then 0 else
      var r := -EPROTO;
      -r
  }

  /**
   * As written, a failure to clear the codec buffer is reported as a
   * positive value, which the callers' `ret < 0` check does not see; the
   * corrected status is the negative errno the rest of the backend uses.
   */
  lemma StartFlushFailureInvisible(err: AacError)
    requires err != Ok
    ensures StartFlushStatusAsWritten(err) == EPROTO && !(StartFlushStatusAsWritten(err) < 0)
    ensures StartFlushStatus(err) == -StartFlushStatusAsWritten(err) && StartFlushStatus(err) < 0
  {
  }

  /**
   * start_flush: when discarding, empty the input queue and clear the
   * codec's buffer, and on failure return with the flags as they were;
   * otherwise turn the request into a flush in progress.
   */
  function StartFlushSpec(s: WorkerState): (r: (int, WorkerState))
    ensures r.0 <= 0
    ensures r.0 == 0 ==> !r.1.ctl.flush && r.1.ctl.flushing
    ensures r.0 != 0 ==> r.1.ctl == s.ctl.(inQueue := []) && s.ctl.flushDiscard
    ensures s.ctl.flushDiscard ==> r.1.ctl.inQueue == []
    ensures !s.ctl.flushDiscard ==> r == (0, s.(ctl := s.ctl.(flush := false, flushing := true)))
    ensures r.1.ctl.shouldStop == s.ctl.shouldStop && r.1.ctl.flushDiscard == s.ctl.flushDiscard && r.1.ctl.mbox == s.ctl.mbox
    ensures r.1.outQueue == s.outQueue && r.1.counters == s.counters
    ensures r.1.codec == s.codec.(handle := r.1.codec.handle)
    ensures s.ctl.flushDiscard ==>
              r.1.codec.handle == SetParamStep(s.codec.handle).1 && (r.0 == 0 <==> SetParamStep(s.codec.handle).0 == Ok)
  {
    if s.ctl.flushDiscard then
      var p := SetParamStep(s.codec.handle);
      var s1 := s.(ctl := s.ctl.(inQueue := []), codec := s.codec.(handle := p.1));
      if p.0 != Ok then (StartFlushStatus(p.0), s1)
      else (0, s1.(ctl := s1.ctl.(flush := false, flushing := true)))
    else (0, s.(ctl := s.ctl.(flush := false, flushing := true)))
  }

  /**
   * complete_flush: when discarding, empty both queues; then end the flush,
   * clear the discard flag and post one flush message.
   */
  function CompleteFlushSpec(s: WorkerState): (r: WorkerState)
    ensures !r.ctl.flushing && !r.ctl.flushDiscard
    ensures r.ctl.mbox == s.ctl.mbox + [MSG_FLUSH]
    ensures s.ctl.flushDiscard ==> r.ctl.inQueue == [] && r.outQueue == []
    ensures !s.ctl.flushDiscard ==> r.ctl.inQueue == s.ctl.inQueue && r.outQueue == s.outQueue
    ensures r.ctl.shouldStop == s.ctl.shouldStop && r.ctl.flush == s.ctl.flush
    ensures r.codec == s.codec && r.counters == s.counters
  {
    var discard := s.ctl.flushDiscard;
    var s1 := if discard then s.(ctl := s.ctl.(inQueue := []), outQueue := []) else s;
    s1.(ctl := s1.ctl.(flushing := false, flushDiscard := false, mbox := s1.ctl.mbox + [MSG_FLUSH]))
  }

  /**
   * One turn of check_input_queue's loop on a non-empty input queue: decode
   * the head frame (peeked, not popped); pop it only if decoding returned 0
   * or -ENOSPC, and then start a requested flush; on any other status leave
   * the head (with the ancillary data decoding attached) in the queue and
   * stop. The flag says whether the loop goes on.
   */
  function DrainStep(s: WorkerState, now: nat): (r: (WorkerState, bool))
    requires s.ctl.inQueue != []
    ensures var d := DecodeSpec(s, s.ctl.inQueue[0], now);
      (r.1 <==> d.ret == 0 || d.ret == -ENOSPC) &&
      (!r.1 ==> r.0 == d.state.(ctl := d.state.ctl.(inQueue := [d.stamped] + s.ctl.inQueue[1..]))) &&
      (r.1 ==> r.0.ctl.inQueue == s.ctl.inQueue[1..] || r.0.ctl.inQueue == [])
    ensures r.1 ==> |r.0.ctl.inQueue| < |s.ctl.inQueue|
    ensures r.1 && r.0.ctl.flush ==> r.0.ctl.flushDiscard && r.0.ctl.inQueue == []
    ensures s.ctl.flush && r.1 ==> r.0.ctl.flushing || (r.0.ctl.flush && r.0.ctl.flushDiscard && r.0.ctl.inQueue == [])
    ensures s.ctl.flushing ==> r.0.ctl.flushing
    ensures s.ctl.flush ==> r.0.ctl.flush || r.0.ctl.flushing
    ensures r.0.ctl.flush ==> s.ctl.flush
    ensures r.0.counters.input == s.counters.input && r.0.counters.output == s.counters.output
    ensures r.0.ctl.shouldStop == s.ctl.shouldStop && r.0.ctl.mbox == s.ctl.mbox
  {
    var d := DecodeSpec(s, s.ctl.inQueue[0], now);
    if d.ret < 0 && d.ret != -ENOSPC then (d.state.(ctl := d.state.ctl.(inQueue := [d.stamped] + s.ctl.inQueue[1..])), false)
    else
      var s1 := d.state.(ctl := d.state.ctl.(inQueue := s.ctl.inQueue[1..]));
      (if s1.ctl.flush then StartFlushSpec(s1).1 else s1, true)
  }

  /** check_input_queue's loop: turns until the queue is empty or a frame stalls it. */
  function Drain(s: WorkerState, now: nat): (r: WorkerState)
    ensures r.counters.input == s.counters.input && r.counters.output == s.counters.output
    ensures r.ctl.shouldStop == s.ctl.shouldStop && r.ctl.mbox == s.ctl.mbox
    ensures |r.ctl.inQueue| <= |s.ctl.inQueue|
    decreases |s.ctl.inQueue|
  {
    if s.ctl.inQueue == [] then s
    else
      var step := DrainStep(s, now);
      if !step.1 then step.0 else Drain(step.0, now)
  }

  /**
   * A drain never drops a flush: a flush in progress stays in progress, and
   * a pending request is still pending or has been started.
   */
  lemma {:induction false} DrainKeepsFlush(s: WorkerState, now: nat)
    ensures s.ctl.flushing ==> Drain(s, now).ctl.flushing
    ensures s.ctl.flush ==> Drain(s, now).ctl.flush || Drain(s, now).ctl.flushing
    decreases |s.ctl.inQueue|
  {
    if s.ctl.inQueue != [] {
      var step := DrainStep(s, now);
      if step.1 {
        DrainKeepsFlush(step.0, now);
      }
    }
  }

  /** check_input_queue: the drain, then a flush requested meanwhile is started. */
  function CheckInputQueueSpec(s: WorkerState, now: nat): (r: WorkerState)
    ensures r.ctl.shouldStop == s.ctl.shouldStop && r.ctl.mbox == s.ctl.mbox
    ensures r.ctl.flush ==> r.ctl.flushDiscard && r.ctl.inQueue == []
    ensures s.ctl.flush || s.ctl.flushing ==>
              r.ctl.flushing || (r.ctl.flush && r.ctl.flushDiscard && r.ctl.inQueue == [])
    ensures r.counters.input == s.counters.input && r.counters.output == s.counters.output
  {
    var r := Drain(s, now);
    DrainKeepsFlush(s, now);
    if r.ctl.flush then StartFlushSpec(r).1 else r
  }

  /**
   * r is what is left of queue q: nothing, or the frames not reached still
   * in order behind a head that keeps the information and format of the
   * frame it replaced.
   */
  predicate LeftSuffix(q: seq<Frame>, r: seq<Frame>)
  {
    |r| <= |q| &&
    (r == [] || (r[1..] == q[|q| - |r| + 1..] && r[0].info == q[|q| - |r|].info && r[0].format == q[|q| - |r|].format))
  }

  /**
   * The drain ends with an empty input queue, or with the frames that were
   * not reached still queued in order behind the frame that stalled it, and
   * that frame keeps its information and format.
   */
  lemma {:induction false} DrainLeavesSuffix(s: WorkerState, now: nat)
    ensures LeftSuffix(s.ctl.inQueue, Drain(s, now).ctl.inQueue)
    decreases |s.ctl.inQueue|
  {
    var q := s.ctl.inQueue;
    if q != [] {
      var step := DrainStep(s, now);
      if step.1 {
        assert Drain(s, now) == Drain(step.0, now);
        DrainLeavesSuffix(step.0, now);
        SuffixAfterPop(q, step.0.ctl.inQueue, Drain(step.0, now).ctl.inQueue);
      } else {
        StalledHead(s, now);
      }
    }
  }

  /** The suffix property of the rest of the drain carries over to the queue before its head was popped. */
  lemma SuffixAfterPop(q: seq<Frame>, q1: seq<Frame>, r: seq<Frame>)
    requires q != [] && (q1 == q[1..] || q1 == [])
    requires LeftSuffix(q1, r)
    ensures LeftSuffix(q, r)
  {
    if r != [] {
      var k1 := |q1| - |r|;
      assert q1[k1 + 1..] == q[k1 + 2..];
      assert q1[k1] == q[k1 + 1];
    }
  }

  /** A frame that stalls the drain stays at the head, with its information and format. */
  lemma StalledHead(s: WorkerState, now: nat)
    requires s.ctl.inQueue != [] && !DrainStep(s, now).1
    ensures LeftSuffix(s.ctl.inQueue, Drain(s, now).ctl.inQueue)
  {
    var q := s.ctl.inQueue;
    var d := DecodeSpec(s, q[0], now);
    assert d.stamped.(ancillary := q[0].ancillary) == q[0];
    assert Drain(s, now) == DrainStep(s, now).0;
    var r := DrainStep(s, now).0.ctl.inQueue;
    assert r == [d.stamped] + q[1..];
    assert |q| - |r| == 0 && r[1..] == q[1..];
  }

  /**
   * A frame whose decoding fails with any status but 0 or -ENOSPC is not
   * popped: the drain stops with it at the head of the input queue, so the
   * next drain decodes it again. A frame whose information cannot be read
   * leaves the queue exactly as it was.
   */
  lemma HardFailureStalls(s: WorkerState, now: nat)
    requires s.ctl.inQueue != []
    requires var d := DecodeSpec(s, s.ctl.inQueue[0], now); d.ret < 0 && d.ret != -ENOSPC
    ensures Drain(s, now).ctl.inQueue == [DecodeSpec(s, s.ctl.inQueue[0], now).stamped] + s.ctl.inQueue[1..]
    ensures s.ctl.inQueue[0].infoErr < 0 ==> Drain(s, now).ctl.inQueue == s.ctl.inQueue
  {
    assert Drain(s, now) == DrainStep(s, now).0;
    assert s.ctl.inQueue == [s.ctl.inQueue[0]] + s.ctl.inQueue[1..];
  }

  /** Timestamps never go back along a sequence of frames. */
  predicate InOrder(q: seq<Frame>)
  {
    forall i, j :: 0 <= i < j < |q| ==> q[i].info.timestamp <= q[j].info.timestamp
  }

  /** Frames decoded and not yet delivered, then frames waiting to be decoded. */
  function Pipeline(s: WorkerState): seq<Frame>
  {
    s.outQueue + s.ctl.inQueue
  }

  lemma InOrderReplaceHead(out: seq<Frame>, h: Frame, rest: seq<Frame>, extra: seq<Frame>)
    requires InOrder(out + [h] + rest)
    requires forall i :: 0 <= i < |extra| ==> extra[i].info == h.info
    ensures InOrder(out + extra + rest)
  {
    var a := out + [h] + rest;
    var b := out + extra + rest;
    forall i, j | 0 <= i < j < |b| ensures b[i].info.timestamp <= b[j].info.timestamp {
      var ii := if i < |out| then i else if i < |out| + |extra| then |out| else i - |extra| + 1;
      var jj := if j < |out| then j else if j < |out| + |extra| then |out| else j - |extra| + 1;
      assert b[i].info.timestamp == a[ii].info.timestamp;
      assert b[j].info.timestamp == a[jj].info.timestamp;
    }
  }

  lemma InOrderPrefix(a: seq<Frame>, b: seq<Frame>)
    requires InOrder(a + b)
    ensures InOrder(a)
  {
    forall i, j | 0 <= i < j < |a| ensures a[i].info.timestamp <= a[j].info.timestamp {
      assert a[i] == (a + b)[i] && a[j] == (a + b)[j];
    }
  }

  lemma InOrderAfterDecode(out: seq<Frame>, h: Frame, rest: seq<Frame>, out2: seq<Frame>, q2: seq<Frame>)
    requires InOrder(out + [h] + rest)
    requires |out| <= |out2| && out2[..|out|] == out
    requires forall i :: |out| <= i < |out2| ==> out2[i].info == h.info
    requires q2 == [] || q2 == rest || (|q2| > 0 && q2[0].info == h.info && q2[1..] == rest)
    ensures InOrder(out2 + q2)
  {
    var extra := out2[|out|..];
    assert out2 == out + extra;
    if q2 == [] {
      InOrderReplaceHead(out, h, rest, extra);
      InOrderPrefix(out + extra, rest);
      assert out2 + q2 == out + extra;
    } else if q2 == rest {
      InOrderReplaceHead(out, h, rest, extra);
      assert out2 + q2 == out + extra + rest;
    } else {
      InOrderReplaceHead(out, h, rest, extra + [q2[0]]);
      assert q2 == [q2[0]] + rest;
      assert out2 + q2 == out + (extra + [q2[0]]) + rest;
    }
  }

  /** One turn of the drain keeps the pipeline in timestamp order. */
  lemma DrainStepKeepsOrder(s: WorkerState, now: nat)
    requires s.ctl.inQueue != [] && InOrder(Pipeline(s))
    ensures InOrder(Pipeline(DrainStep(s, now).0))
  {
    var q := s.ctl.inQueue;
    var d := DecodeSpec(s, q[0], now);
    var step := DrainStep(s, now);
    assert q == [q[0]] + q[1..];
    assert Pipeline(s) == s.outQueue + [q[0]] + q[1..];
    assert step.0.outQueue == d.state.outQueue;
    InOrderAfterDecode(s.outQueue, q[0], q[1..], d.state.outQueue, step.0.ctl.inQueue);
  }

  /**
   * Decoding keeps the order of presentation: if the decoded frames followed
   * by the queued ones are in timestamp order, they still are after a drain,
   * since every output of a frame carries that frame's information.
   */
  lemma {:induction false} DrainKeepsOrder(s: WorkerState, now: nat)
    requires InOrder(Pipeline(s))
    ensures InOrder(Pipeline(Drain(s, now)))
    decreases |s.ctl.inQueue|
  {
    if s.ctl.inQueue != [] {
      DrainStepKeepsOrder(s, now);
      var step := DrainStep(s, now);
      if step.1 {
        DrainKeepsOrder(step.0, now);
      }
    }
  }

  /** What wakes the decoding thread: input arrived, the wait timed out, or the wait failed. */
  datatype Wake = InputReady | TimedOut | WaitFailed

  /** Input events and time-outs both drain the input queue; a failed wait does nothing. */
  function WakeSpec(s: WorkerState, w: Wake, now: nat): (r: WorkerState)
    ensures r.ctl.shouldStop == s.ctl.shouldStop && r.ctl.mbox == s.ctl.mbox
  {
    if w == WaitFailed then s else CheckInputQueueSpec(s, now)
  }

  /**
   * The decoding thread's loop, given what each wait returns: while not
   * asked to stop, or while a flush is in progress, complete a flush in
   * progress or else wait; after the loop, post the stop message. The flag
   * says whether the thread left its loop before the waits ran out.
   */
  function Run(s: WorkerState, wakes: seq<Wake>, now: nat): (r: (bool, WorkerState))
    ensures r.1.ctl.shouldStop == s.ctl.shouldStop
    ensures !r.1.ctl.flushing
    decreases |wakes|, if s.ctl.flushing then 1 else 0
  {
    if s.ctl.shouldStop && !s.ctl.flushing then (true, s.(ctl := s.ctl.(mbox := s.ctl.mbox + [MSG_STOP])))
    else if s.ctl.flushing then Run(CompleteFlushSpec(s), wakes, now)
    else if wakes == [] then (false, s)
    else Run(WakeSpec(s, wakes[0], now), wakes[1..], now)
  }

  /** Messages are only ever appended to the mailbox: flush messages, then one stop message if the thread left its loop. */
  predicate PostedOnly(before: seq<char>, after: seq<char>, stopped: bool)
  {
    |before| <= |after| && after[..|before|] == before &&
    (forall i :: |before| <= i < |after| ==> (after[i] == MSG_STOP <==> stopped && i == |after| - 1)) &&
    (forall i :: |before| <= i < |after| ==> after[i] == MSG_FLUSH || after[i] == MSG_STOP) &&
    (stopped ==> |before| < |after|)
  }

  /**
   * The thread leaves its loop exactly when it was asked to stop; when it
   * does, no flush is in progress any more and the last message it posted is
   * the only stop message; a flush that was in progress posts its flush
   * message first.
   */
  lemma {:induction false} RunExit(s: WorkerState, wakes: seq<Wake>, now: nat)
    ensures var r := Run(s, wakes, now);
      (r.0 <==> s.ctl.shouldStop) &&
      (r.0 ==> !r.1.ctl.flushing) &&
      PostedOnly(s.ctl.mbox, r.1.ctl.mbox, r.0) &&
      (s.ctl.flushing ==> |s.ctl.mbox| < |r.1.ctl.mbox| && r.1.ctl.mbox[|s.ctl.mbox|] == MSG_FLUSH)
    decreases |wakes|, if s.ctl.flushing then 1 else 0
  {
    var m := s.ctl.mbox;
    var r := Run(s, wakes, now);
    if s.ctl.shouldStop && !s.ctl.flushing {
      assert r.1.ctl.mbox == m + [MSG_STOP];
    } else if s.ctl.flushing {
      var c := CompleteFlushSpec(s);
      RunExit(c, wakes, now);
      var m2 := r.1.ctl.mbox;
      assert c.ctl.mbox == m + [MSG_FLUSH];
      assert m2[..|c.ctl.mbox|] == c.ctl.mbox;
      assert m2[|m|] == c.ctl.mbox[|m|];
      assert m2[..|m|] == c.ctl.mbox[..|m|];
    } else if wakes != [] {
      RunExit(WakeSpec(s, wakes[0], now), wakes[1..], now);
    }
  }

  /**
   * A flush that was only requested when the thread is asked to stop is
   * never started: the thread posts the stop message and no flush message,
   * and the request stays pending.
   */
  lemma RequestedFlushNotCompleted(s: WorkerState, wakes: seq<Wake>, now: nat)
    requires s.ctl.shouldStop && s.ctl.flush && !s.ctl.flushing
    ensures Run(s, wakes, now) == (true, s.(ctl := s.ctl.(mbox := s.ctl.mbox + [MSG_STOP])))
    ensures Run(s, wakes, now).1.ctl.flush && MSG_FLUSH !in Run(s, wakes, now).1.ctl.mbox[|s.ctl.mbox|..]
  {
    assert (s.ctl.mbox + [MSG_STOP])[|s.ctl.mbox|..] == [MSG_STOP];
  }

  /** A callback the main loop runs when it is idle. */
  datatype IdleCall = CallFlushDone | CallStopDone

  /** mbox_cb: the idle calls scheduled for the messages read, in order; an unknown message is only logged. */
  function Schedule(msgs: seq<char>): (calls: seq<IdleCall>)
    ensures |calls| <= |msgs|
    decreases |msgs|
  {
    if msgs == [] then [] else MessageCalls(msgs[0]) + Schedule(msgs[1..])
  }

  /** The idle call one message schedules: none for an unknown message. */
  function MessageCalls(message: char): (calls: seq<IdleCall>)
    ensures |calls| <= 1
    ensures CallFlushDone in calls <==> message == MSG_FLUSH
    ensures CallStopDone in calls <==> message == MSG_STOP
  {
    if message == MSG_FLUSH then [CallFlushDone] else if message == MSG_STOP then [CallStopDone] else []
  }

  /** Reading two batches of messages schedules the calls of the first, then those of the second. */
  lemma {:induction false} ScheduleAppend(a: seq<char>, b: seq<char>)
    ensures Schedule(a + b) == Schedule(a) + Schedule(b)
    decreases |a|
  {
    if a == [] {
      assert a + b == b;
    } else {
      assert (a + b)[0] == a[0] && (a + b)[1..] == a[1..] + b;
      ScheduleAppend(a[1..], b);
      assert Schedule(a + b) == MessageCalls(a[0]) + (Schedule(a[1..]) + Schedule(b));
    }
  }

  /**
   * The messages the decoding thread posts each schedule exactly one call:
   * the flush message the flush callback and the stop message the stop
   * callback.
   */
  lemma {:induction false} ScheduleOfPosted(msgs: seq<char>)
    requires forall i :: 0 <= i < |msgs| ==> msgs[i] == MSG_FLUSH || msgs[i] == MSG_STOP
    ensures var calls := Schedule(msgs);
      |calls| == |msgs| &&
      forall i :: 0 <= i < |msgs| ==> (calls[i] == CallFlushDone <==> msgs[i] == MSG_FLUSH)
    decreases |msgs|
  {
    if msgs != [] {
      ScheduleOfPosted(msgs[1..]);
      var calls := Schedule(msgs);
      forall i | 0 <= i < |msgs| ensures calls[i] == CallFlushDone <==> msgs[i] == MSG_FLUSH {
        if i > 0 {
          assert calls[i] == Schedule(msgs[1..])[i - 1];
          assert msgs[i] == msgs[1..][i - 1];
        }
      }
    }
  }

  /** What the application is told when the scheduled idle calls run. */
  function Notifications(calls: seq<IdleCall>, cbs: Callbacks): (events: seq<AppEvent>)
    ensures |events| <= |calls|
    ensures cbs.flush && cbs.stop ==> |events| == |calls|
    decreases |calls|
  {
    if calls == [] then []
    else
      var head := match calls[0]
        case CallFlushDone => if cbs.flush then [FlushDone] else []
        case CallStopDone => if cbs.stop then [StopDone] else [];
      head + Notifications(calls[1..], cbs)
  }

  /**
   * How many output frames one output-queue event pops: every ready frame,
   * except that a frame whose information cannot be read ends the event
   * after it is handled.
   */
  function PopCount(q: seq<Frame>): (n: nat)
    ensures n <= |q|
    ensures n < |q| ==> n > 0 && q[n - 1].infoErr != 0
    decreases |q|
  {
    if q == [] then 0
    else if q[0].infoErr != 0 then 1
    else 1 + PopCount(q[1..])
  }

  /** Every popped frame but the last is readable, and a queue of readable frames is popped whole. */
  lemma {:induction false} PopCountReady(q: seq<Frame>)
    ensures forall i :: 0 <= i < PopCount(q) - 1 ==> q[i].infoErr == 0
    ensures (forall i :: 0 <= i < |q| ==> q[i].infoErr == 0) ==> PopCount(q) == |q|
    decreases |q|
  {
    if q != [] && q[0].infoErr == 0 {
      PopCountReady(q[1..]);
      assert forall i :: 1 <= i < |q| ==> q[i] == q[1..][i - 1];
    }
  }

  /** The frame_output calls one output-queue event makes: one per popped frame, none while discarding. */
  function Deliveries(popped: seq<Frame>, discard: bool): (events: seq<AppEvent>)
    ensures discard ==> events == []
    ensures !discard ==> |events| == |popped|
    ensures !discard ==> forall i :: 0 <= i < |popped| ==> events[i] == FrameOutput(0, Some(popped[i]))
    decreases |popped|
  {
    if discard || popped == [] then []
    else
      var last := |popped| - 1;
      var r := Deliveries(popped[..last], discard) + [FrameOutput(0, Some(popped[last]))];
      assert forall i :: 0 <= i < last ==> popped[..last][i] == popped[i];
      r
  }

  /** Popping one more frame delivers one more frame_output call, at the end, unless discarding. */
  lemma DeliveriesOneMore(q: seq<Frame>, k: nat, discard: bool)
    requires k < |q|
    ensures Deliveries(q[..k + 1], discard) ==
              Deliveries(q[..k], discard) + (if discard then [] else [FrameOutput(0, Some(q[k]))])
  {
    assert q[..k + 1][..k] == q[..k];
  }


}
