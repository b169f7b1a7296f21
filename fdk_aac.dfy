/**
 * The FDK AAC backend (`struct adec_fdk_aac` and its operations): the
 * application-side setters and input filter, the decoding thread's steps,
 * and the main-loop callbacks that deliver output and completion events.
 * Each step is proved to perform the corresponding function of FdkAacSpec.
 */
module FdkAac {
  import opened AdecTypes
  import opened AdecCore
  import opened FdkAacEngine
  import opened FdkAacFormats
  import opened FdkAacSpec

  /** Nothing in the base record but its counters has changed. */
  twostate predicate OnlyCountersChanged(d: Decoder)
    reads d
  {
    d.ops == old(d.ops) && d.cbs == old(d.cbs) && d.config == old(d.config) &&
    d.configured == old(d.configured) && d.decId == old(d.decId) &&
    d.lastTimestamp == old(d.lastTimestamp) && d.events == old(d.events)
  }

  class FdkAacDecoder {
    const base: Decoder
    var inQueue: seq<Frame>
    var outQueue: seq<Frame>
    var threadLaunched: bool
    var shouldStop: bool
    var flush: bool
    var flushing: bool
    var flushDiscard: bool
    /** Messages posted by the decoding thread and not yet read by the main loop. */
    var mbox: seq<char>
    /** Calls scheduled on the main loop and not yet run. */
    var idle: seq<IdleCall>
    var handle: Option<Engine>
    var outputFormat: Format
    var outputSize: nat
    var outputFormatValid: bool
    /** The queues, mailbox and codec have been released by destroy. */
    var released: bool

    /** The state the decoding thread works on. */
    function State(): WorkerState
      reads this, base
    {
      WorkerState(
        Control(inQueue, shouldStop, flush, flushing, flushDiscard, mbox),
        Codec(handle, outputFormat, outputSize, outputFormatValid),
        outQueue,
        base.counters)
    }

    /** The zero-filled record: no frames, no flags, no messages, no codec yet. */
    constructor (base: Decoder)
      ensures this.base == base
      ensures inQueue == [] && outQueue == [] && mbox == [] && idle == []
      ensures !threadLaunched && !shouldStop && !flush && !flushing && !flushDiscard && !released
      ensures handle.None? && outputFormat == ZERO_FORMAT && outputSize == 0 && !outputFormatValid
    {
      this.base := base;
      inQueue := [];
      outQueue := [];
      threadLaunched := false;
      shouldStop := false;
      flush := false;
      flushing := false;
      flushDiscard := false;
      mbox := [];
      idle := [];
      handle := None;
      outputFormat := ZERO_FORMAT;
      outputSize := 0;
      outputFormatValid := false;
      released := false;
    }

    /**
     * create: only AAC-LC is accepted; otherwise the backend record is set
     * up with its control flags clear and its decoding thread launched.
     */
    static method Create(base: Decoder) returns (ret: int, self: FdkAacDecoder?)
      ensures base.config.encoding != AacLc ==> ret == -EINVAL && self == null
      ensures base.config.encoding == AacLc ==> ret == 0 && self != null && fresh(self) && self.base == base
      ensures self != null ==>
                self.threadLaunched && !self.shouldStop && !self.flush && !self.flushing && !self.flushDiscard &&
                self.inQueue == [] && self.outQueue == [] && self.mbox == [] && self.idle == [] &&
                self.handle.None? && self.outputSize == 0 && !self.outputFormatValid && !self.released
    {
      if base.config.encoding != AacLc {
        return -EINVAL, null;
      }
      self := new FdkAacDecoder(base);
      self.threadLaunched := true;
      ret := 0;
    }

    /** flush: record the request; a newer request overwrites the discard flag of an older one. */
    method Flush(discard: bool) returns (ret: int)
      modifies this
      ensures ret == 0 && flush && flushDiscard == discard
      ensures State() == old(State()).(ctl := old(State()).ctl.(flush := true, flushDiscard := discard))
      ensures idle == old(idle) && threadLaunched == old(threadLaunched) && released == old(released)
    {
      flush := true;
      flushDiscard := discard;
      ret := 0;
    }

    /** stop: ask the decoding thread to stop and mark the decoder as no longer configured. */
    method Stop() returns (ret: int)
      modifies this, base
      ensures ret == 0 && shouldStop && !base.configured
      ensures State() == old(State()).(ctl := old(State()).ctl.(shouldStop := true))
      ensures idle == old(idle) && threadLaunched == old(threadLaunched) && released == old(released)
      ensures base.events == old(base.events) && base.lastTimestamp == old(base.lastTimestamp) && base.ops == old(base.ops)
      ensures base.cbs == old(base.cbs) && base.config == old(base.config) && base.decId == old(base.decId)
    {
      shouldStop := true;
      base.configured := false;
      ret := 0;
    }

    /**
     * destroy: stop, then release the queues, the mailbox, the codec and the
     * pending idle calls. It always succeeds.
     */
    method Destroy() returns (ret: int)
      modifies this, base
      ensures ret == 0 && shouldStop && !base.configured && released
      ensures inQueue == [] && outQueue == [] && mbox == [] && idle == [] && handle.None?
      ensures base.events == old(base.events) && base.counters == old(base.counters) && base.ops == old(base.ops)
      ensures base.lastTimestamp == old(base.lastTimestamp) && base.cbs == old(base.cbs) &&
              base.config == old(base.config) && base.decId == old(base.decId)
    {
      var err := Stop();
      inQueue := [];
      outQueue := [];
      mbox := [];
      handle := None;
      idle := [];
      released := true;
      ret := 0;
    }

    /**
     * The input queue's filter: no input while a flush is in progress or
     * once stopping; then the frame's information must be readable, the
     * default admission check must pass and the frame must be packed; an
     * admitted frame is confirmed.
     */
    method InputFilter(frame: Frame, now: nat) returns (accept: bool, stamped: Frame)
      modifies base
      ensures accept <==>
                !flushing && !shouldStop && frame.infoErr == 0 &&
                FilterInternal(frame.format, frame.info.timestamp, old(base.lastTimestamp), SupportedFormats()) &&
                frame.bufferErr == 0
      ensures !accept ==> stamped == frame && unchanged(base)
      ensures accept ==> stamped == AddAncillary(frame, KEY_INPUT_TIME, now)
      ensures accept ==> base.lastTimestamp == frame.info.timestamp
      ensures accept ==> base.counters == old(base.counters).(input := old(base.counters).input + 1)
      ensures base.events == old(base.events) && base.configured == old(base.configured) && base.ops == old(base.ops)
      ensures base.cbs == old(base.cbs) && base.config == old(base.config) && base.decId == old(base.decId)
    {
      stamped := frame;
      if flushing || shouldStop {
        return false, stamped;
      }
      if frame.infoErr != 0 {
        return false, stamped;
      }
      if !FilterInternal(frame.format, frame.info.timestamp, base.lastTimestamp, SupportedFormats()) {
        return false, stamped;
      }
      if frame.bufferErr != 0 {
        return false, stamped;
      }
      stamped := base.ConfirmFrame(frame, now);
      accept := true;
    }

    /** A push into the input queue: the frame is queued, with its input time, exactly when the filter admits it. */
    method PushInput(frame: Frame, now: nat) returns (accepted: bool)
      modifies this, base
      ensures accepted ==> inQueue == old(inQueue) + [AddAncillary(frame, KEY_INPUT_TIME, now)]
      ensures !accepted ==> inQueue == old(inQueue) && unchanged(base)
      ensures accepted <==>
                !old(flushing) && !old(shouldStop) && frame.infoErr == 0 && frame.bufferErr == 0 &&
                FilterInternal(frame.format, frame.info.timestamp, old(base.lastTimestamp), SupportedFormats())
      ensures accepted ==> base.lastTimestamp == frame.info.timestamp
      ensures accepted ==> base.counters == old(base.counters).(input := old(base.counters).input + 1)
      ensures base.ops == old(base.ops) && base.cbs == old(base.cbs) && base.config == old(base.config)
      ensures base.decId == old(base.decId) && base.configured == old(base.configured) && base.events == old(base.events)
      ensures outQueue == old(outQueue) && flush == old(flush) && flushing == old(flushing) && shouldStop == old(shouldStop)
      ensures flushDiscard == old(flushDiscard) && mbox == old(mbox) && idle == old(idle) && handle == old(handle)
    {
      ghost var q0 := inQueue;
      var stamped;
      accepted, stamped := InputFilter(frame, now);
      assert inQueue == q0 && flushing == old(flushing) && shouldStop == old(shouldStop);
      if accepted {
        inQueue := inQueue + [stamped];
      }
    }

    /** get_stream_info on the backend record. */
    method GetStreamInfo() returns (ret: int)
      modifies this
      ensures (ret, State().codec) == GetStreamInfoSpec(old(State().codec))
      ensures State().ctl == old(State().ctl) && outQueue == old(outQueue)
      ensures idle == old(idle) && threadLaunched == old(threadLaunched) && released == old(released)
    {
      if outputFormatValid {
        return 0;
      }
      if handle.None? || handle.value.info.None? {
        return -EINVAL;
      }
      var info := handle.value.info.value;
      outputFormat := PcmOutputFormat(info);
      outputSize := OutputSize(info);
      outputFormatValid := true;
      ret := 0;
    }

    /**
     * decode_frame. A missing frame is not an error; otherwise the frame is
     * checked, pushed into the codec and decoded as DecodeSpec says.
     */
    method DecodeFrame(inFrame: Option<Frame>, now: nat) returns (ret: int, stamped: Option<Frame>)
      modifies this, base
      ensures inFrame.None? ==> ret == 0 && stamped.None? && State() == old(State())
      ensures inFrame.Some? ==>
                var d := DecodeSpec(old(State()), inFrame.value, now);
                ret == d.ret && stamped == Some(d.stamped) && State() == d.state
      ensures OnlyCountersChanged(base)
      ensures idle == old(idle) && threadLaunched == old(threadLaunched) && released == old(released)
    {
      if inFrame.None? {
        return 0, None;
      }
      var f := inFrame.value;
      if f.infoErr < 0 {
        return f.infoErr, inFrame;
      }
      if !FormatIntersect(f.format, SupportedFormats()) {
        return -ENOSYS, inFrame;
      }
      if f.bufferErr != 0 {
        return f.bufferErr, inFrame;
      }
      var g;
      ret, g := PushAndDecodeFrame(f, now);
      stamped := Some(g);
    }

    /** Push the checked frame into the codec, then decode what it yields. */
    method PushAndDecodeFrame(f: Frame, now: nat) returns (ret: int, stamped: Frame)
      modifies this, base
      ensures DecodeOutcome(ret, stamped, State()) == PushAndDecode(old(State()), f, now)
      ensures OnlyCountersChanged(base)
      ensures idle == old(idle) && threadLaunched == old(threadLaunched) && released == old(released)
    {
      var ok := FillCodec(f);
      if !ok {
        return -EPROTO, f;
      }
      ret, stamped := DecodePushedFrame(f, now);
    }

    /** Fill the codec with the frame's buffer. */
    method FillCodec(f: Frame) returns (ok: bool)
      modifies this
      ensures (ok, State()) == FillSpec(old(State()), f)
      ensures idle == old(idle) && threadLaunched == old(threadLaunched) && released == old(released)
    {
      var fill := if f.size > 0 then FillStep(handle) else (Ok, handle);
      handle := fill.1;
      ok := fill.0 == Ok;
    }

    /** Stamp and count the frame now in the codec, then decode what it yields. */
    method DecodePushedFrame(f: Frame, now: nat) returns (ret: int, stamped: Frame)
      modifies this, base
      ensures DecodeOutcome(ret, stamped, State()) == DecodePushed(old(State()), f, now)
      ensures OnlyCountersChanged(base)
      ensures idle == old(idle) && threadLaunched == old(threadLaunched) && released == old(released)
    {
      ghost var s0 := State();
      stamped := AddAncillary(f, KEY_DEQUEUE_TIME, now);
      base.counters := base.counters.(pushed := base.counters.pushed + 1);
      ghost var s2 := s0.(counters := s0.counters.(pushed := s0.counters.pushed + 1));
      assert State() == s2;
      if handle.None? {
        return -EPROTO, stamped;
      }
      ret := DecodeUnits(stamped, now);
      assert (ret, State()) == DecodeLoop(s2, stamped, false, now);
    }

    /** The decode loop of decode_frame, for the frame g already pushed into the codec. */
    method DecodeUnits(g: Frame, now: nat) returns (ret: int)
      requires handle.Some?
      modifies this, base
      ensures (ret, State()) == DecodeLoop(old(State()), g, false, now)
      ensures OnlyCountersChanged(base)
      ensures idle == old(idle) && threadLaunched == old(threadLaunched) && released == old(released)
    {
      ghost var goal := DecodeLoop(State(), g, false, now);
      var hasDecoded := false;
      var done := false;
      ret := 0;
      while !done
        invariant handle.Some?
        invariant done ==> (ret, State()) == goal
        invariant !done ==> DecodeLoop(State(), g, hasDecoded, now) == goal
        invariant OnlyCountersChanged(base)
        invariant idle == old(idle) && threadLaunched == old(threadLaunched) && released == old(released)
        decreases !done, |handle.value.decodes|
      {
        ret, done := DecodeNext(g, hasDecoded, now, goal);
        hasDecoded := true;
      }
    }

    /**
     * One pass of the decode loop: decode a unit and stop on any codec
     * outcome but OK, otherwise handle the decoded unit; done says whether
     * the loop ends here.
     */
    method DecodeNext(g: Frame, hasDecoded: bool, now: nat, ghost goal: (int, WorkerState)) returns (ret: int, done: bool)
      requires handle.Some? && DecodeLoop(State(), g, hasDecoded, now) == goal
      modifies this, base
      ensures handle.Some?
      ensures done ==> (ret, State()) == goal
      ensures !done ==> DecodeLoop(State(), g, true, now) == goal && |handle.value.decodes| < old(|handle.value.decodes|)
      ensures OnlyCountersChanged(base)
      ensures idle == old(idle) && threadLaunched == old(threadLaunched) && released == old(released)
    {
      ghost var before := State();
      var step := DecodeStep(handle.value);
      handle := Some(step.1);
      ghost var s1 := State();
      assert s1 == before.(codec := before.codec.(handle := Some(step.1)));
      if step.0 == NotEnoughBits {
        return (if hasDecoded then 0 else -ENOSPC), true;
      }
      if step.0 != Ok {
        return -EPROTO, true;
      }
      ret := DecodeUnitStep(g, now);
      done := ret != 0;
    }

    /** One decoded unit: count it, latch the output format if need be, and queue its output frame. */
    method DecodeUnitStep(g: Frame, now: nat) returns (ret: int)
      modifies this, base
      ensures (ret, State()) == DecodeUnit(old(State()), g, now)
      ensures OnlyCountersChanged(base)
      ensures idle == old(idle) && threadLaunched == old(threadLaunched) && released == old(released)
    {
      base.counters := base.counters.(pulled := base.counters.pulled + 1);
      ret := GetStreamInfo();
      if ret != 0 {
        return;
      }
      outQueue := outQueue + [OutputFrame(g, outputFormat, outputSize, now)];
    }

    /**
     * start_flush: when discarding, empty the input queue and clear the
     * codec's buffer; then turn the request into a flush in progress.
     */
    method StartFlush() returns (ret: int)
      modifies this
      ensures (ret, State()) == StartFlushSpec(old(State()))
      ensures idle == old(idle) && threadLaunched == old(threadLaunched) && released == old(released)
    {
      if flushDiscard {
        inQueue := [];
        var p := SetParamStep(handle);
        handle := p.1;
        if p.0 != Ok {
          return StartFlushStatus(p.0);
        }
      }
      flush := false;
      flushing := true;
      ret := 0;
    }

    /** complete_flush: drop everything when discarding, end the flush and post the flush message. */
    method CompleteFlush() returns (ret: int)
      modifies this
      ensures ret == 0 && State() == CompleteFlushSpec(old(State()))
      ensures idle == old(idle) && threadLaunched == old(threadLaunched) && released == old(released)
    {
      if flushDiscard {
        inQueue := [];
        outQueue := [];
      }
      flushing := false;
      flushDiscard := false;
      mbox := mbox + [MSG_FLUSH];
      ret := 0;
    }

    /**
     * check_input_queue: peek the head frame and decode it; pop it only when
     * decoding succeeded or the codec needs more data, and start a requested
     * flush; stop at the first other failure; start a requested flush at the
     * end.
     */
    method CheckInputQueue(now: nat)
      modifies this, base
      ensures State() == CheckInputQueueSpec(old(State()), now)
      ensures OnlyCountersChanged(base)
      ensures idle == old(idle) && threadLaunched == old(threadLaunched) && released == old(released)
    {
      ghost var goal := Drain(State(), now);
      var err := 0;
      while err == 0 && inQueue != []
        invariant err == 0 ==> Drain(State(), now) == goal
        invariant err != 0 ==> State() == goal
        invariant OnlyCountersChanged(base)
        invariant idle == old(idle) && threadLaunched == old(threadLaunched) && released == old(released)
        decreases |inQueue| + (if err == 0 then 1 else 0)
      {
        var popped := DrainHead(now);
        if !popped {
          err := -ENOSPC;
        }
      }
      if flush {
        var r := StartFlush();
      }
    }

    /** One turn of check_input_queue's loop, on a non-empty input queue. */
    method DrainHead(now: nat) returns (popped: bool)
      requires inQueue != []
      modifies this, base
      ensures (State(), popped) == DrainStep(old(State()), now)
      ensures OnlyCountersChanged(base)
      ensures idle == old(idle) && threadLaunched == old(threadLaunched) && released == old(released)
    {
      ghost var s := State();
      var head := inQueue[0];
      var rest := inQueue[1..];
      var ret, stamped := DecodeFrame(Some(head), now);
      ghost var d := DecodeSpec(s, head, now);
      assert ret == d.ret && stamped == Some(d.stamped) && State() == d.state;
      if ret < 0 && ret != -ENOSPC {
        inQueue := [stamped.value] + rest;
        assert State() == d.state.(ctl := d.state.ctl.(inQueue := [d.stamped] + rest));
        return false;
      }
      inQueue := rest;
      assert State() == d.state.(ctl := d.state.ctl.(inQueue := rest));
      if flush {
        var r := StartFlush();
      }
      popped := true;
    }

    /**
     * The decoding thread, given what each of its waits returns: it runs
     * while not asked to stop or while a flush is in progress, then posts
     * the stop message. It returns whether it left its loop before the
     * waits ran out.
     */
    method RunWorker(wakes: seq<Wake>, now: nat) returns (exited: bool)
      modifies this, base
      ensures (exited, State()) == Run(old(State()), wakes, now)
      ensures OnlyCountersChanged(base)
      ensures idle == old(idle) && threadLaunched == old(threadLaunched) && released == old(released)
    {
      ghost var goal := Run(State(), wakes, now);
      var i := 0;
      while !shouldStop || flushing
        invariant 0 <= i <= |wakes|
        invariant Run(State(), wakes[i..], now) == goal
        invariant OnlyCountersChanged(base)
        invariant idle == old(idle) && threadLaunched == old(threadLaunched) && released == old(released)
        decreases |wakes| - i, if flushing then 1 else 0
      {
        if flushing {
          var ret := CompleteFlush();
        } else {
          if i == |wakes| {
            return false;
          }
          var w := wakes[i];
          assert wakes[i..][1..] == wakes[i + 1..];
          i := i + 1;
          if w != WaitFailed {
            CheckInputQueue(now);
          }
        }
      }
      mbox := mbox + [MSG_STOP];
      exited := true;
    }

    /**
     * The output queue's event on the main loop: pop every ready output
     * frame and hand it to the application, or drop it while a discarding
     * flush is under way. An output frame whose information cannot be read
     * is still handled, and ends the event.
     */
    method OutQueueEvent()
      modifies this, base
      ensures var n := PopCount(old(outQueue));
        outQueue == old(outQueue)[n..] &&
        base.events == old(base.events) +
          (if base.cbs.frameOutput then Deliveries(old(outQueue)[..n], old(flushDiscard)) else [])
      ensures var n := PopCount(old(outQueue));
        base.counters == old(base.counters).(output := old(base.counters).output +
          (if base.cbs.frameOutput && !old(flushDiscard) then n else 0))
      ensures (forall i :: 0 <= i < |old(outQueue)| ==> old(outQueue)[i].infoErr == 0) ==> outQueue == []
      ensures OutputOnly()
    {
      ghost var q := outQueue;
      ghost var k := 0;
      var err := 0;
      while err == 0 && outQueue != []
        invariant k <= |q| && Emitted(q, k, old(base.events), old(base.counters))
        invariant err == 0 ==> PopCount(q) == k + PopCount(q[k..])
        invariant err != 0 ==> PopCount(q) == k
        invariant OutputOnly()
        decreases |outQueue|
      {
        var frame := PopOutput(q, k, old(base.events), old(base.counters));
        err := frame.infoErr;
        assert q[k..][1..] == q[k + 1..];
        k := k + 1;
      }
      PopCountReady(q);
    }

    /** Nothing but the output queue and the base record's events and counters has changed. */
    twostate predicate OutputOnly()
      reads this, base
    {
      State().ctl == old(State().ctl) && State().codec == old(State().codec) &&
      idle == old(idle) && threadLaunched == old(threadLaunched) && released == old(released) &&
      base.lastTimestamp == old(base.lastTimestamp) && base.configured == old(base.configured) &&
      base.cbs == old(base.cbs) && base.ops == old(base.ops) && base.config == old(base.config) &&
      base.decId == old(base.decId)
    }

    /**
     * The output event after k frames of q: the output queue holds the rest
     * of q, and the events and the output counter record the first k.
     */
    ghost predicate Emitted(q: seq<Frame>, k: nat, e0: seq<AppEvent>, c0: Counters)
      requires k <= |q|
      reads this, base
    {
      outQueue == q[k..] &&
      base.events == e0 + (if base.cbs.frameOutput then Deliveries(q[..k], flushDiscard) else []) &&
      base.counters == c0.(output := c0.output + (if base.cbs.frameOutput && !flushDiscard then k else 0))
    }

    /** Pop one output frame and deliver it, unless a discarding flush is under way. */
    method PopOutput(ghost q: seq<Frame>, ghost k: nat, ghost e0: seq<AppEvent>, ghost c0: Counters) returns (frame: Frame)
      requires k < |q| && Emitted(q, k, e0, c0)
      modifies this, base
      ensures frame == q[k] && Emitted(q, k + 1, e0, c0)
      ensures OutputOnly()
    {
      frame := outQueue[0];
      outQueue := outQueue[1..];
      if !flushDiscard {
        base.CallFrameOutputCb(0, Some(frame));
      }
      DeliveriesOneMore(q, k, flushDiscard);
    }

    /** mbox_cb: read every posted message and schedule the matching completion call. */
    method MboxCb()
      modifies this
      ensures mbox == [] && idle == old(idle) + Schedule(old(mbox))
      ensures MailboxOnly()
    {
      while mbox != []
        invariant idle + Schedule(mbox) == old(idle) + Schedule(old(mbox))
        invariant MailboxOnly()
        decreases |mbox|
      {
        ReadMessage();
      }
    }

    /** Nothing but the mailbox and the pending idle calls has changed. */
    twostate predicate MailboxOnly()
      reads this
    {
      inQueue == old(inQueue) && outQueue == old(outQueue) && threadLaunched == old(threadLaunched) &&
      shouldStop == old(shouldStop) && flush == old(flush) && flushing == old(flushing) &&
      flushDiscard == old(flushDiscard) && handle == old(handle) && outputFormat == old(outputFormat) &&
      outputSize == old(outputSize) && outputFormatValid == old(outputFormatValid) && released == old(released)
    }

    /** Read one message and schedule the idle call it asks for. */
    method ReadMessage()
      requires mbox != []
      modifies this
      ensures mbox == old(mbox[1..]) && idle + Schedule(mbox) == old(idle) + Schedule(old(mbox))
      ensures MailboxOnly()
    {
      var message := mbox[0];
      var calls := MessageCalls(message);
      assert Schedule(mbox) == calls + Schedule(mbox[1..]);
      mbox := mbox[1..];
      idle := idle + calls;
    }

    /**
     * The main loop running the scheduled completion calls in order: each
     * flush completion re-arms the timestamp sentinel and calls the flush
     * callback, each stop completion calls the stop callback.
     */
    method RunIdle()
      modifies this, base
      ensures idle == []
      ensures base.events == old(base.events) + Notifications(old(idle), base.cbs)
      ensures CallFlushDone in old(idle) ==> base.lastTimestamp == UINT64_MAX
      ensures CallFlushDone !in old(idle) ==> base.lastTimestamp == old(base.lastTimestamp)
      ensures base.counters == old(base.counters) && base.configured == old(base.configured) && base.cbs == old(base.cbs)
      ensures base.ops == old(base.ops) && base.config == old(base.config) && base.decId == old(base.decId)
      ensures State().ctl == old(State().ctl) && State().codec == old(State().codec) && outQueue == old(outQueue)
    {
      ghost var calls := idle;
      ghost var k := 0;
      while idle != []
        invariant 0 <= k <= |calls| && idle == calls[k..]
        invariant base.events == old(base.events) + Notifications(calls[..k], base.cbs)
        invariant CallFlushDone in calls[..k] ==> base.lastTimestamp == UINT64_MAX
        invariant CallFlushDone !in calls[..k] ==> base.lastTimestamp == old(base.lastTimestamp)
        invariant base.counters == old(base.counters) && base.configured == old(base.configured) && base.cbs == old(base.cbs)
        invariant base.ops == old(base.ops) && base.config == old(base.config) && base.decId == old(base.decId)
        invariant State().ctl == old(State().ctl) && State().codec == old(State().codec) && outQueue == old(outQueue)
        decreases |idle|
      {
        var call := idle[0];
        idle := idle[1..];
        NotificationsAppend(calls[..k], [call], base.cbs);
        assert calls[..k + 1] == calls[..k] + [call];
        if call == CallFlushDone {
          base.CallFlushCb();
        } else {
          base.CallStopCb();
        }
        k := k + 1;
      }
      assert calls[..k] == calls;
    }

    /**
     * set_aac_asc: the data format selects the transport type; the codec is
     * opened with it (`codec` is what opening returns), configured with the
     * AudioSpecificConfig for raw streams, and given its concealment method.
     */
    method SetAacAsc(dataFormat: AacDataFormat, codec: Option<Engine>) returns (ret: int)
      modifies this
      ensures TransportTypeOf(dataFormat).None? ==> ret == -ENOSYS && handle == old(handle)
      ensures TransportTypeOf(dataFormat).Some? ==> handle.None? == codec.None?
      ensures TransportTypeOf(dataFormat).Some? && codec.None? ==> ret == -EPROTO
      ensures dataFormat == Raw && codec.Some? && codec.value.configRaw != Ok ==> ret == -EPROTO
      ensures ret == 0 <==>
                TransportTypeOf(dataFormat).Some? && codec.Some? &&
                (dataFormat == Raw ==> codec.value.configRaw == Ok) &&
                SetParamStep(codec).0 == Ok
      ensures ret == 0 || ret == -ENOSYS || ret == -EPROTO
      ensures TransportTypeOf(dataFormat).Some? && codec.Some? && (dataFormat == Raw ==> codec.value.configRaw == Ok) ==>
                handle == SetParamStep(codec).1
      ensures TransportTypeOf(dataFormat).Some? && !(codec.Some? && (dataFormat == Raw ==> codec.value.configRaw == Ok)) ==>
                handle == codec
      ensures State().ctl == old(State().ctl) && outQueue == old(outQueue) && outputFormatValid == old(outputFormatValid)
      ensures outputFormat == old(outputFormat) && outputSize == old(outputSize)
      ensures idle == old(idle) && threadLaunched == old(threadLaunched) && released == old(released)
    {
      var tt := TransportTypeOf(dataFormat);
      if tt.None? {
        return -ENOSYS;
      }
      handle := codec;
      if handle.None? {
        return -EPROTO;
      }
      if tt.value == TtMp4Raw && handle.value.configRaw != Ok {
        return -EPROTO;
      }
      var p := SetParamStep(handle);
      handle := p.1;
      if p.0 != Ok {
        return -EPROTO;
      }
      ret := 0;
    }
  }

  /**
   * The input filter keeps the pipeline (decoded frames, then queued ones)
   * in timestamp order: a frame it admits is no earlier than any frame
   * already in the pipeline, as long as the pipeline holds only frames
   * admitted since the sentinel was last re-armed.
   */
  lemma AdmittedKeepsOrder(p: seq<Frame>, f: Frame, last: U64, now: nat)
    requires InOrder(p)
    requires last == UINT64_MAX ==> p == []
    requires forall i :: 0 <= i < |p| ==> p[i].info.timestamp <= last
    requires FilterInternal(f.format, f.info.timestamp, last, SupportedFormats())
    ensures InOrder(p + [AddAncillary(f, KEY_INPUT_TIME, now)])
    ensures forall i :: 0 <= i < |p| ==> p[i].info.timestamp < f.info.timestamp
  {
    var g := AddAncillary(f, KEY_INPUT_TIME, now);
    var q := p + [g];
    forall i, j | 0 <= i < j < |q| ensures q[i].info.timestamp <= q[j].info.timestamp {
      if j == |p| {
        assert q[i] == p[i];
      } else {
        assert q[i] == p[i] && q[j] == p[j];
      }
    }
  }


  /** Running two batches of idle calls notifies for the first, then for the second. */
  lemma {:induction false} NotificationsAppend(a: seq<IdleCall>, b: seq<IdleCall>, cbs: Callbacks)
    ensures Notifications(a + b, cbs) == Notifications(a, cbs) + Notifications(b, cbs)
    decreases |a|
  {
    if a == [] {
      assert a + b == b;
    } else {
      assert (a + b)[1..] == a[1..] + b;
      NotificationsAppend(a[1..], b, cbs);
    }
  }
}
