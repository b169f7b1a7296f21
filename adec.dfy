/**
 * The public API (`adec.c`): implementation selection, decoder creation
 * and the entry points that check their arguments and dispatch to the
 * implementation's operations. `fdkBuilt` says whether the library was
 * built with the FDK AAC implementation; without it no implementation is
 * available.
 */
module Adec {
  import opened AdecTypes
  import opened AdecCore
  import FdkAacFormats
  import FdkAacEngine
  import opened FdkAac

  /** The operations table of the FDK AAC implementation; it provides set_aac_asc. */
  const FDK_AAC_OPS: Ops := Ops(IMPLEM_FDK_AAC, true)

  /** implem_ops: the operations of an implementation, when it is built in. */
  function ImplemOps(implem: int, fdkBuilt: bool): (ops: Option<Ops>)
    ensures ops.Some? <==> fdkBuilt && implem == IMPLEM_FDK_AAC
    ensures ops.Some? ==> ops.value.implem == implem
  {
    if fdkBuilt && implem == IMPLEM_FDK_AAC then Some(FDK_AAC_OPS) else None
  }

  /**
   * adec_get_implem: AUTO and FDK_AAC both resolve to FDK_AAC when it is
   * built; anything else is not available and is left as it is.
   */
  function GetImplem(implem: int, fdkBuilt: bool): (r: (int, int))
    ensures r.0 == 0 || r.0 == -ENOSYS
    ensures r.0 == 0 <==> fdkBuilt && (implem == IMPLEM_AUTO || implem == IMPLEM_FDK_AAC)
    ensures r.0 == 0 ==> r.1 == IMPLEM_FDK_AAC
    ensures r.0 != 0 ==> r.1 == implem
  {
    if fdkBuilt && (implem == IMPLEM_AUTO || implem == IMPLEM_FDK_AAC) then (0, IMPLEM_FDK_AAC)
    else (-ENOSYS, implem)
  }

  /**
   * Resolving is idempotent, a resolved implementation is never AUTO and
   * always has an operations table.
   */
  lemma GetImplemResolves(implem: int, fdkBuilt: bool)
    ensures var r := GetImplem(implem, fdkBuilt);
      r.0 == 0 ==> GetImplem(r.1, fdkBuilt) == r && r.1 != IMPLEM_AUTO && ImplemOps(r.1, fdkBuilt).Some?
  {
  }

  /**
   * adec_get_supported_input_formats: refuses a missing output pointer and an
   * unavailable implementation, otherwise returns the implementation's table.
   */
  function GetSupportedInputFormats(implem: int, hasFormats: bool, fdkBuilt: bool): (r: (int, seq<Format>))
    ensures !hasFormats ==> r.0 == -EINVAL
    ensures hasFormats && GetImplem(implem, fdkBuilt).0 < 0 ==> r.0 == -ENOSYS
    ensures r.0 >= 0 <==> hasFormats && fdkBuilt && (implem == IMPLEM_AUTO || implem == IMPLEM_FDK_AAC)
    ensures r.0 >= 0 ==> r.0 == |r.1| == FdkAacFormats.NB_SUPPORTED_FORMATS && r.1 == FdkAacFormats.SupportedFormats()
  {
    if !hasFormats then (-EINVAL, [])
    else
      var g := GetImplem(implem, fdkBuilt);
      if g.0 < 0 then (g.0, [])
      else FdkAacFormats.GetSupportedInputFormats()
  }

  /** adec_get_auto_implem: the implementation AUTO resolves to, or AUTO when none is available. */
  function GetAutoImplem(fdkBuilt: bool): (implem: int)
    ensures implem == IMPLEM_FDK_AAC <==> fdkBuilt
    ensures implem != IMPLEM_FDK_AAC ==> implem == IMPLEM_AUTO
    ensures implem != IMPLEM_AUTO ==> GetImplem(IMPLEM_AUTO, fdkBuilt) == (0, implem)
  {
    var r := GetImplem(IMPLEM_AUTO, fdkBuilt);
    if r.0 < 0 then IMPLEM_AUTO else r.1
  }

  /** An implementation that is available and lists the format among its supported input formats. */
  predicate Decodes(implem: int, format: Format, fdkBuilt: bool)
  {
    GetImplem(implem, fdkBuilt).0 == 0 &&
    FormatIntersect(format, GetSupportedInputFormats(GetImplem(implem, fdkBuilt).1, true, fdkBuilt).1)
  }

  /**
   * adec_get_auto_implem_by_coded_format: the first implementation after
   * AUTO that is available and supports the format, or AUTO when there is
   * none or no format is given.
   */
  method GetAutoImplemByCodedFormat(format: Option<Format>, fdkBuilt: bool) returns (implem: int)
    ensures format.None? ==> implem == IMPLEM_AUTO
    ensures implem != IMPLEM_AUTO ==>
              format.Some? && IMPLEM_AUTO < implem < IMPLEM_MAX && Decodes(implem, format.value, fdkBuilt) &&
              forall i :: IMPLEM_AUTO < i < implem ==> !Decodes(i, format.value, fdkBuilt)
    ensures implem == IMPLEM_AUTO && format.Some? ==>
              forall i :: IMPLEM_AUTO < i < IMPLEM_MAX ==> !Decodes(i, format.value, fdkBuilt)
  {
    if format.None? {
      return IMPLEM_AUTO;
    }
    var candidate := IMPLEM_AUTO + 1;
    while candidate < IMPLEM_MAX
      invariant IMPLEM_AUTO < candidate <= IMPLEM_MAX
      invariant forall i :: IMPLEM_AUTO < i < candidate ==> !Decodes(i, format.value, fdkBuilt)
      decreases IMPLEM_MAX - candidate
    {
      var res := GetImplem(candidate, fdkBuilt);
      if res.0 == 0 {
        candidate := res.1;
        var count := GetSupportedInputFormats(candidate, true, fdkBuilt);
        if count.0 >= 0 && FormatIntersect(format.value, count.1) {
          return candidate;
        }
      }
      candidate := candidate + 1;
    }
    implem := IMPLEM_AUTO;
  }

  /** With the FDK AAC implementation built, a format is matched to it exactly when its table lists the format. */
  lemma AutoImplemByCodedFormatIsTable(format: Format, fdkBuilt: bool)
    ensures Decodes(IMPLEM_FDK_AAC, format, fdkBuilt) <==> fdkBuilt && format in FdkAacFormats.SupportedFormats()
  {
  }

  /**
   * The operations adec_new's error path reaches adec_destroy with, as
   * written: the table is only set once the implementation resolved.
   */
  function NewErrorPathOpsAsWritten(implem: int, fdkBuilt: bool): (ops: Option<Ops>)
    ensures GetImplem(implem, fdkBuilt).0 < 0 ==> ops.None?
  {
    var g := GetImplem(implem, fdkBuilt);
    if g.0 < 0 then None else ImplemOps(g.1, fdkBuilt)
  }

  /**
   * A configuration naming IMPLEM_MAX (or any implementation when none is
   * built) makes adec_new take its error path with no operations table, and
   * adec_destroy then calls the table's destroy unconditionally.
   */
  lemma NewErrorPathHasNoOps(fdkBuilt: bool)
    ensures GetImplem(IMPLEM_MAX, fdkBuilt).0 == -ENOSYS
    ensures NewErrorPathOpsAsWritten(IMPLEM_MAX, fdkBuilt).None?
    ensures !fdkBuilt ==> NewErrorPathOpsAsWritten(IMPLEM_AUTO, fdkBuilt).None?
  {
  }

  /** Arguments adec_new insists on: a loop, a configuration, callbacks with frame_output, an output pointer. */
  predicate NewArgsValid(hasLoop: bool, config: Option<Config>, cbs: Option<Callbacks>, hasRetObj: bool)
  {
    hasLoop && config.Some? && cbs.Some? && cbs.value.frameOutput && hasRetObj
  }

  /**
   * adec_new, with the error path corrected to release the record without
   * calling into an operations table it does not have. `counter` is the
   * process-wide instance counter, which every call with valid arguments
   * advances.
   */
  method New(hasLoop: bool, config: Option<Config>, cbs: Option<Callbacks>, hasRetObj: bool, counter: nat, fdkBuilt: bool)
    returns (ret: int, self: Decoder?, derived: FdkAacDecoder?, nextCounter: nat)
    ensures !NewArgsValid(hasLoop, config, cbs, hasRetObj) ==> ret == -EINVAL && nextCounter == counter
    ensures NewArgsValid(hasLoop, config, cbs, hasRetObj) ==> nextCounter == counter + 1
    ensures NewArgsValid(hasLoop, config, cbs, hasRetObj) && GetImplem(config.value.implem, fdkBuilt).0 < 0 ==>
              ret == -ENOSYS
    ensures (NewArgsValid(hasLoop, config, cbs, hasRetObj) && GetImplem(config.value.implem, fdkBuilt).0 == 0 &&
             config.value.encoding != AacLc) ==> ret == -EINVAL
    ensures ret == 0 <==>
              NewArgsValid(hasLoop, config, cbs, hasRetObj) && GetImplem(config.value.implem, fdkBuilt).0 == 0 &&
              config.value.encoding == AacLc
    ensures ret != 0 ==> ret < 0 && self == null && derived == null
    ensures ret == 0 ==>
              self != null && fresh(self) && derived != null && fresh(derived) && derived.base == self &&
              self.decId == counter + 1 && self.config == config.value.(implem := IMPLEM_FDK_AAC) &&
              self.ops == Some(FDK_AAC_OPS) && self.cbs == cbs.value && !self.configured &&
              self.lastTimestamp == UINT64_MAX && self.counters == ZERO_COUNTERS && self.events == [] &&
              derived.threadLaunched && !derived.shouldStop && !derived.flush && !derived.flushing &&
              derived.inQueue == [] && derived.outQueue == [] && derived.handle.None? &&
              !derived.flushDiscard && derived.mbox == [] && derived.idle == [] &&
              !derived.outputFormatValid && derived.outputSize == 0 && !derived.released
  {
    nextCounter := counter;
    if !hasLoop || config.None? || cbs.None? || !cbs.value.frameOutput || !hasRetObj {
      return -EINVAL, null, null, nextCounter;
    }
    nextCounter := counter + 1;
    var record := new Decoder(config.value, cbs.value, nextCounter);
    var g := GetImplem(record.config.implem, fdkBuilt);
    if g.0 < 0 {
      return g.0, null, null, nextCounter;
    }
    record.config := record.config.(implem := g.1);
    record.ops := ImplemOps(g.1, fdkBuilt);
    ret, derived := FdkAacDecoder.Create(record);
    if ret < 0 {
      var destroyed, freed := Destroy(record, null);
      return ret, null, null, nextCounter;
    }
    self := record;
  }

  /** The link adec_new establishes between the base record and the implementation's record. */
  predicate Linked(self: Decoder?, derived: FdkAacDecoder?)
    reads self, derived
  {
    self != null ==> self.ops.Some? && derived != null && derived.base == self
  }

  /** adec_flush: refuses a NULL decoder, otherwise records the request in the implementation. */
  method Flush(self: Decoder?, derived: FdkAacDecoder?, discard: bool) returns (ret: int)
    requires Linked(self, derived)
    modifies derived
    ensures self == null ==> ret == -EINVAL
    ensures self != null ==> ret == 0 && derived.flush && derived.flushDiscard == discard
    ensures self != null ==>
              derived.State() == old(derived.State()).(ctl := old(derived.State()).ctl.(flush := true, flushDiscard := discard)) &&
              derived.idle == old(derived.idle) && derived.threadLaunched == old(derived.threadLaunched) &&
              derived.released == old(derived.released) && unchanged(self)
  {
    if self == null {
      return -EINVAL;
    }
    ret := derived.Flush(discard);
  }

  /** adec_stop: refuses a NULL decoder, otherwise asks the decoding thread to stop. */
  method Stop(self: Decoder?, derived: FdkAacDecoder?) returns (ret: int)
    requires Linked(self, derived)
    modifies derived, self
    ensures self == null ==> ret == -EINVAL
    ensures self != null ==> ret == 0 && derived.shouldStop && !self.configured
    ensures self != null ==>
              derived.State() == old(derived.State()).(ctl := old(derived.State()).ctl.(shouldStop := true)) &&
              derived.idle == old(derived.idle) && derived.threadLaunched == old(derived.threadLaunched) &&
              derived.released == old(derived.released)
    ensures self != null ==>
              self.ops == old(self.ops) && self.cbs == old(self.cbs) && self.config == old(self.config) &&
              self.decId == old(self.decId) && self.lastTimestamp == old(self.lastTimestamp) &&
              self.counters == old(self.counters) && self.events == old(self.events)
  {
    if self == null {
      return -EINVAL;
    }
    ret := derived.Stop();
  }

  /**
   * adec_destroy: a NULL decoder is a no-op; otherwise the implementation
   * releases its record (nothing to release when it has none) and the base
   * record is freed when that succeeded.
   */
  method Destroy(self: Decoder?, derived: FdkAacDecoder?) returns (ret: int, freed: bool)
    requires self != null ==> self.ops.Some?
    requires derived != null ==> self != null && derived.base == self
    modifies derived, self
    ensures ret == 0
    ensures freed <==> self != null
    ensures derived != null ==> derived.released && derived.shouldStop && derived.inQueue == [] && derived.outQueue == []
    ensures derived != null ==> derived.idle == [] && derived.handle.None? && !self.configured
  {
    if self == null {
      return 0, false;
    }
    if derived == null {
      ret := 0;
    } else {
      ret := derived.Destroy();
    }
    freed := ret == 0;
  }

  /**
   * adec_set_aac_asc: refuses a NULL or already configured decoder; the
   * decoder is configured afterwards exactly when the implementation
   * accepted the configuration.
   */
  method SetAacAsc(self: Decoder?, derived: FdkAacDecoder?, dataFormat: AacDataFormat, codec: Option<FdkAacEngine.Engine>)
    returns (ret: int)
    requires Linked(self, derived)
    modifies self, derived
    ensures self == null ==> ret == -EINVAL
    ensures self != null && old(self.configured) ==> ret == -EALREADY && unchanged(self) && unchanged(derived)
    ensures self != null ==>
              self.ops == old(self.ops) && self.cbs == old(self.cbs) && self.config == old(self.config) &&
              self.decId == old(self.decId) && self.lastTimestamp == old(self.lastTimestamp) &&
              self.counters == old(self.counters) && self.events == old(self.events)
    ensures self != null && !old(self.configured) ==> self.configured == (ret == 0)
    ensures self != null && !old(self.configured) && !old(self.ops.value.hasSetAacAsc) ==> ret == -ENOSYS && unchanged(derived)
    ensures self != null && !old(self.configured) && old(self.ops.value.hasSetAacAsc) ==>
              derived.State().ctl == old(derived.State().ctl) && derived.outQueue == old(derived.outQueue) &&
              derived.outputFormat == old(derived.outputFormat) && derived.outputSize == old(derived.outputSize) &&
              derived.outputFormatValid == old(derived.outputFormatValid) && derived.idle == old(derived.idle) &&
              derived.threadLaunched == old(derived.threadLaunched) && derived.released == old(derived.released)
    ensures self != null && !old(self.configured) && old(self.ops.value.hasSetAacAsc) ==>
              (FdkAacEngine.TransportTypeOf(dataFormat).None? ==> derived.handle == old(derived.handle)) &&
              (FdkAacEngine.TransportTypeOf(dataFormat).Some? && codec.Some? &&
               (dataFormat == Raw ==> codec.value.configRaw == FdkAacEngine.Ok) ==>
                 derived.handle == FdkAacEngine.SetParamStep(codec).1) &&
              (FdkAacEngine.TransportTypeOf(dataFormat).Some? &&
               !(codec.Some? && (dataFormat == Raw ==> codec.value.configRaw == FdkAacEngine.Ok)) ==>
                 derived.handle == codec)
    ensures self != null && !old(self.configured) && old(self.ops.value.hasSetAacAsc) ==>
              (ret == 0 <==>
                 FdkAacEngine.TransportTypeOf(dataFormat).Some? && codec.Some? &&
                 (dataFormat == Raw ==> codec.value.configRaw == FdkAacEngine.Ok) &&
                 FdkAacEngine.SetParamStep(codec).0 == FdkAacEngine.Ok)
  {
    if self == null {
      return -EINVAL;
    }
    if self.configured {
      return -EALREADY;
    }
    if self.ops.value.hasSetAacAsc {
      ret := derived.SetAacAsc(dataFormat, codec);
    } else {
      ret := -ENOSYS;
    }
    self.configured := ret == 0;
  }

  /** adec_get_input_buffer_queue: the queue the application pushes frames into, here by its contents. */
  function GetInputBufferQueue(self: Decoder?, derived: FdkAacDecoder?): (queue: Option<seq<Frame>>)
    requires Linked(self, derived)
    reads self, derived
    ensures queue.None? <==> self == null
    ensures queue.Some? ==> queue.value == derived.inQueue
  {
    if self == null then None else Some(derived.inQueue)
  }

  /** adec_get_used_implem: the resolved implementation, or AUTO for a NULL decoder. */
  function GetUsedImplem(self: Decoder?): (implem: int)
    reads self
    ensures self == null ==> implem == IMPLEM_AUTO
    ensures self != null ==> implem == self.config.implem
  {
    if self == null then IMPLEM_AUTO else self.config.implem
  }
}
