# libaudio-decode in Dafny

A model of the control logic of libaudio-decode, Parrot's audio decoding library. It has three parts.

**Core** (`AdecTypes`, `AdecEnums`, `AdecCore`):
- the decoder record `struct adec_decoder`, with its counters, `last_timestamp` and `configured`;
- the callback wrappers;
- the default input filter, which admits a frame only when its format is supported and its timestamp is strictly later than the last admitted one. `UINT64_MAX` is the "no previous frame" sentinel.

**Public API** (`Adec`):
- implementation resolution (AUTO resolves to FDK_AAC when it is built);
- the ordered scan for an implementation that decodes a format;
- `adec_new`'s argument checks and initialisation;
- the `configured` / `-EALREADY` gate on `adec_set_aac_asc`;
- destroy-frees-on-success;
- the NULL-handle rules of the delegating entry points.

**FDK AAC backend** (`FdkAacEngine`, `FdkAacFormats`, `FdkAacSpec`, `FdkAac`):
- the 48-entry table of supported input formats;
- the codec error names;
- the data-format to transport-type mapping;
- the latched PCM output format and size.

The backend record `struct adec_fdk_aac` is the class `FdkAac.FdkAacDecoder`:
- its atomics `flush`, `flushing`, `flush_discard` and `should_stop` are plain fields;
- its input and output queues are sequences of frames;
- the mailbox is the sequence of characters posted and not yet read;
- the main loop's pending idle calls are a sequence of `IdleCall`s.

Each step of the decoding thread is a method of that class: `decode_frame`, `start_flush`, `complete_flush`, `check_input_queue` and the worker loop. Each method is proved to perform the matching function of `FdkAacSpec` on the thread's state (`WorkerState`: control flags and queues, codec latch, output queue, counters). The properties of the thread are proved on those functions:
- the decode loop's closed form;
- the head frame leaving the input queue exactly on success or need-more-data;
- timestamp order being kept through decoding;
- the thread leaving its loop exactly when asked to stop, never in the middle of a flush, after posting exactly one stop message.

The drain pops a frame only when decoding it returned 0 or `-ENOSPC`. A frame whose decoding fails with any other status (`-EPROTO`, `-ENOSYS`, a frame-information or buffer error) stays at the head of the input queue: the drain stops there and decodes it again on the next wake-up, and only a discarding flush removes it.

The FDK AAC codec is foreign code. `FdkAacEngine.Engine` stands in for it: a script of the outcomes its Fill, DecodeFrame and SetParam calls return, the result of ConfigRaw, and the stream information it reports.

## Model

| member | source | states |
|---|---|---|
| AdecTypes.AddAncillary | core/include/audio-decode/adec_core.h:52-71 | attaching an ancillary value under a key adds exactly that key with that value; a key already present is left as it was; nothing else about the frame changes |
| AdecEnums.ImplemStr | core/src/adec_enums.c:32-40 | "FDK_AAC" exactly for FDK_AAC, "UNKNOWN" for every other value including AUTO and MAX |
| AdecEnums.ConfigGetSpecific | core/src/adec_enums.c:43-71 | no specific config without an extension, for another implementation, or when the extension names a different implementation than the base config; a result is the extension itself, and then all three implementations agree |
| AdecEnums.ConfigGetSpecificComplete | core/src/adec_enums.c:43-71 | a config whose extension matches the requested implementation always gets it back |
| AdecEnums.ConfigGetSpecificOnlyForOwnImplem | core/include/audio-decode/adec_core.h:133-139 | for configs that keep the documented rule, the extension is handed out exactly for the config's own implementation and never for AUTO |
| AdecCore.Decoder.constructor | src/adec.c:148-159 | a new record holds the given config, callbacks and id, has no ops and is not configured; `last_timestamp` is the sentinel, and the counters and delivered events start empty |
| AdecCore.Decoder.CallFrameOutputCb | core/src/adec_format.c:32-42 | without a frame_output callback nothing happens; otherwise the event is delivered, and `out` grows by one exactly when status is 0 and there is a frame |
| AdecCore.Decoder.CallFlushCb | core/src/adec_format.c:45-55 | the sentinel is re-armed whether or not a flush callback is set; the flush callback is called only when set |
| AdecCore.Decoder.CallStopCb | core/src/adec_format.c:58-64 | the stop callback is called only when set, and no decoder state changes |
| AdecCore.Decoder.ConfirmFrame | core/src/adec_format.c:129-150 | `last_timestamp` becomes the frame's timestamp and `in` grows by one, nothing else in the record changes, and the frame gets its input-time key |
| AdecCore.FilterInternal | core/src/adec_format.c:94-126 | an unsupported format is refused whatever its timestamp; with a supported format a frame is refused exactly when its timestamp is at most the last one and that is not the sentinel |
| AdecCore.DefaultInputFilter | core/src/adec_format.c:67-91 | refuses a missing frame or decoder, unreadable frame information and a failed format lookup, and then changes nothing; otherwise accepts exactly what the internal check accepts, and an accepted frame is confirmed with the rest of the record unchanged |
| AdecCore.AdmitStrictlyIncreasing | core/src/adec_format.c:113-141 | across a run of pushes the admitted timestamps strictly increase, all follow the last timestamp held before, and the decoder ends up holding the last admitted one |
| AdecCore.AdmitLast | core/src/adec_format.c:113-141 | after any run of pushes the decoder holds the last admitted timestamp, or the one it held before when none was admitted |
| AdecCore.AdmitAppend | core/src/adec_format.c:113-141 | one more push after a run is filtered against the last timestamp the run left, and is appended to the admitted ones exactly when it passes |
| AdecCore.MaxTimestampRearmsSentinel | core/src/adec_format.c:138-141 | after any run of pushes whose last admitted frame is stamped UINT64_MAX, the next frame of a supported format is admitted whatever its timestamp, and its timestamp becomes the last one |
| AdecCore.NonMonotonicRejected | core/src/adec_format.c:113-125 | an equal or earlier timestamp is refused and the last timestamp is kept |
| FdkAacEngine.ErrorToStr | fdk-aac/src/adec_fdk_aac.c:96-169 | the log name of a codec error: "UNKNOWN" names exactly AAC_DEC_UNKNOWN and the unlisted values, every other code its own name |
| FdkAacEngine.OkNameOnlyForOk | fdk-aac/src/adec_fdk_aac.c:96-169 | "OK" names exactly AAC_DEC_OK |
| FdkAacEngine.NotEnoughBitsNameOnlyForNotEnoughBits | fdk-aac/src/adec_fdk_aac.c:96-169 | "NOT_ENOUGH_BITS" names exactly AAC_DEC_NOT_ENOUGH_BITS |
| FdkAacEngine.TransportTypeOf | fdk-aac/src/adec_fdk_aac.c:951-965 | raw, ADIF and ADTS map to their transport types, raw exactly to TT_MP4_RAW, and every other data format is unsupported |
| FdkAacEngine.TransportTypeRoundTrip | fdk-aac/src/adec_fdk_aac.c:951-965 | the mapping is a bijection between the three framings and the three transport types |
| FdkAacEngine.FillStep | fdk-aac/src/adec_fdk_aac.c:374-384 | a NULL handle is refused; otherwise one Fill outcome is consumed and nothing else about the codec changes |
| FdkAacEngine.DecodeStep | fdk-aac/src/adec_fdk_aac.c:416-431 | one DecodeFrame outcome is consumed; once the outcomes run out the codec needs more bits |
| FdkAacEngine.SetParamStep | fdk-aac/src/adec_fdk_aac.c:541-547 | a NULL handle is refused; otherwise one SetParam outcome is consumed |
| FdkAacFormats.SupportedFormats | fdk-aac/src/adec_fdk_aac.c:37-93 | the table has 48 entries |
| FdkAacFormats.SupportedFormatsDistinct | fdk-aac/src/adec_fdk_aac.c:37-93 | the 48 entries are pairwise distinct |
| FdkAacFormats.SupportedFormatsMembership | fdk-aac/src/adec_fdk_aac.c:37-93 | a format is in the table exactly when it is AAC-LC, 16-bit, at one of the twelve rates, mono or stereo, raw or ADTS |
| FdkAacFormats.EntryIndex | fdk-aac/src/adec_fdk_aac.c:37-93 | every format of the table's shape sits at a computable index of the table |
| FdkAacFormats.SlotIndex | fdk-aac/src/adec_fdk_aac.c:37-93 | each combination of one of the twelve rates, mono or stereo, and raw or ADTS framing sits at an index below 48 that holds exactly that format |
| FdkAacFormats.GetSupportedInputFormats | fdk-aac/src/adec_fdk_aac.c:704-710 | returns the table and its size 48, which is at least one |
| FdkAacFormats.PcmOutputFormat | fdk-aac/src/adec_fdk_aac.c:303-311 | the latched output format is interleaved, signed, little-endian 16-bit PCM at the stream's rate and channel count |
| FdkAacFormats.OutputSize | fdk-aac/src/adec_fdk_aac.c:313-315 | the output size is channel_count * bit_depth / 8 * frameSize, that is two bytes per sample per channel |
| FdkAacSpec.GetStreamInfoSpec | fdk-aac/src/adec_fdk_aac.c:289-320 | a latched format is returned unchanged; otherwise it fails with -EINVAL when the codec reports no stream information, else it latches the PCM format and size |
| FdkAacSpec.OutputFrame | fdk-aac/src/adec_fdk_aac.c:447-491 | an output frame carries the input frame's information, the PCM format and the output size, is readable and packed, and keeps every ancillary entry of the input frame with the output time added |
| FdkAacSpec.DecodeUnit | fdk-aac/src/adec_fdk_aac.c:433-497 | a decoded unit counts as pulled; when the format is latched, an output frame with the input frame's information and the latched format is appended to the output queue |
| FdkAacSpec.DecodeLoop | fdk-aac/src/adec_fdk_aac.c:396-497 | status is 0, -ENOSPC, -EPROTO or -EINVAL, and -ENOSPC only when nothing was decoded; the output queue only grows, by at most the number of units pulled; a latched format never changes |
| FdkAacSpec.DecodeLoopOutputs | fdk-aac/src/adec_fdk_aac.c:433-497 | every frame the loop queues carries the input frame's information and the latched output format |
| FdkAacSpec.LeadingOkAreOk | fdk-aac/src/adec_fdk_aac.c:416-431 | the loop runs through exactly the OK outcomes before the first other one |
| FdkAacSpec.OkUnitStep | fdk-aac/src/adec_fdk_aac.c:416-497 | with an OK outcome, the loop queues one output frame for the unit, counts it as pulled and goes on from the next outcome as a call that has decoded |
| FdkAacSpec.LoopResultCompose | fdk-aac/src/adec_fdk_aac.c:416-497 | two stretches of decoded units with the same output frame add up to one |
| FdkAacSpec.ShiftOk | fdk-aac/src/adec_fdk_aac.c:416-497 | the loop's closed form from the next outcome, after one OK unit, is its closed form from this one |
| FdkAacSpec.LoopStatus | fdk-aac/src/adec_fdk_aac.c:416-431 | NOT_ENOUGH_BITS ends the loop with 0 if a unit was decoded and -ENOSPC otherwise; any other error ends it with -EPROTO |
| FdkAacSpec.DecodeLoopLatched | fdk-aac/src/adec_fdk_aac.c:396-497 | with the format latched, the loop consumes exactly the leading OK outcomes and the one that stops it; it outputs one frame per OK outcome and pulls the same number |
| FdkAacSpec.DecodeLoopUnlatched | fdk-aac/src/adec_fdk_aac.c:433-445 | before the format is latched, the first decoded unit latches it, or fails with -EINVAL after counting one pulled unit |
| FdkAacSpec.DecodeSpec | fdk-aac/src/adec_fdk_aac.c:323-526 | errors are classified in order: unreadable frame information, -ENOSYS for an unsupported format, then a buffer error, each returned with the frame and state untouched; pushed grows by one only for a fully filled frame, and then the dequeue-time key is attached; the output queue only grows, each output carries the input frame's information, and no control flag changes |
| FdkAacSpec.FillSpec | fdk-aac/src/adec_fdk_aac.c:370-384 | filling changes only the codec handle, and an empty frame needs no Fill call |
| FdkAacSpec.DecodePushed | fdk-aac/src/adec_fdk_aac.c:386-497 | the frame gets its dequeue-time key and counts as pushed; the status is 0, -ENOSPC, -EPROTO or -EINVAL; the output queue only grows, with outputs carrying the frame's information; no control flag changes |
| FdkAacSpec.PushAndDecode | fdk-aac/src/adec_fdk_aac.c:374-497 | a fill failure is -EPROTO with the frame unstamped and the counters unchanged; on success or need-more-data the frame was counted as pushed and stamped; the status is 0, -ENOSPC, -EPROTO or -EINVAL |
| FdkAacSpec.StartFlushStatusAsWritten | fdk-aac/src/adec_fdk_aac.c:541-547 | the status start_flush returns as written: 0 on success |
| FdkAacSpec.StartFlushFailureInvisible | fdk-aac/src/adec_fdk_aac.c:541-547 | as written a SetParam failure is returned as +EPROTO, which no `ret < 0` check sees; the corrected status is -EPROTO |
| FdkAacSpec.StartFlushStatus | fdk-aac/src/adec_fdk_aac.c:541-547 | the corrected status: 0 on success and -EPROTO on failure |
| FdkAacSpec.StartFlushSpec | fdk-aac/src/adec_fdk_aac.c:529-555 | when discarding, the input queue is emptied and the codec gets the clear-buffer SetParam call, and the status is 0 exactly when that call succeeds; on success the request becomes a flush in progress; on failure the flags are unchanged |
| FdkAacSpec.CompleteFlushSpec | fdk-aac/src/adec_fdk_aac.c:255-286 | when discarding, both queues are emptied; the flush ends, the discard flag is cleared and exactly one 'f' is posted |
| FdkAacSpec.DrainStep | fdk-aac/src/adec_fdk_aac.c:558-607 | the head frame is popped exactly when decoding it returned 0 or -ENOSPC; otherwise it stays queued, decorated in place, and the drain stops; after a popped frame a pending flush request is started: it becomes a flush in progress, or survives only when clearing the codec buffer failed (queue emptied, discard set); a flush in progress stays in progress and no request appears |
| FdkAacSpec.Drain | fdk-aac/src/adec_fdk_aac.c:561-598 | the drain never grows the input queue, and leaves the counters of admitted and delivered frames and the stop flag alone |
| FdkAacSpec.DrainKeepsFlush | fdk-aac/src/adec_fdk_aac.c:558-607 | a whole drain keeps a flush in progress in progress, and leaves a pending request pending or started |
| FdkAacSpec.CheckInputQueueSpec | fdk-aac/src/adec_fdk_aac.c:558-607 | the drain followed by starting a flush requested meanwhile: a flush requested or in progress before the call ends in progress, or as a request that survives only when clearing the codec buffer failed; no stop flag, mailbox or admission counter changes |
| FdkAacSpec.DrainLeavesSuffix | fdk-aac/src/adec_fdk_aac.c:558-607 | a drain leaves nothing, or the frames it did not reach in their order behind the stalled frame, which keeps its information and format |
| FdkAacSpec.HardFailureStalls | fdk-aac/src/adec_fdk_aac.c:564-589 | a frame whose decoding fails with a status other than 0 or -ENOSPC is not popped: the drain ends with it, decorated, at the head of the queue; a frame with unreadable information leaves the queue exactly as it was |
| FdkAacSpec.DrainStepKeepsOrder | fdk-aac/src/adec_fdk_aac.c:558-607 | one drain turn keeps the decoded-then-queued frames in timestamp order |
| FdkAacSpec.DrainKeepsOrder | fdk-aac/src/adec_fdk_aac.c:558-607 | a whole drain keeps the decoded-then-queued frames in timestamp order |
| FdkAacSpec.WakeSpec | fdk-aac/src/adec_fdk_aac.c:669-680 | an input event or a time-out drains the input queue; a failed wait does nothing; neither touches the stop flag or the mailbox |
| FdkAacSpec.Run | fdk-aac/src/adec_fdk_aac.c:654-687 | the worker loop given the waits' results: it never ends with a flush in progress and never changes the stop request (the exit behaviour is RunExit's) |
| FdkAacSpec.RunExit | fdk-aac/src/adec_fdk_aac.c:654-687 | the thread leaves its loop exactly when asked to stop, never with a flush in progress; it only appends 'f' and 's' to the mailbox, and 's' exactly once and last when it leaves; a flush in progress posts its 'f' first |
| FdkAacSpec.RequestedFlushNotCompleted | fdk-aac/src/adec_fdk_aac.c:654-687 | a flush only requested when the stop comes is never started: only 's' is posted and the request stays pending |
| FdkAacSpec.MessageCalls | fdk-aac/src/adec_fdk_aac.c:203-220 | the switch on one message: at most one call; the flush completion exactly for 'f', the stop completion exactly for 's', and nothing for an unknown message |
| FdkAacSpec.Schedule | fdk-aac/src/adec_fdk_aac.c:188-223 | mbox_cb schedules at most one call per message read |
| FdkAacSpec.ScheduleAppend | fdk-aac/src/adec_fdk_aac.c:188-223 | reading messages in two batches schedules the same calls in the same order as reading them at once |
| FdkAacSpec.ScheduleOfPosted | fdk-aac/src/adec_fdk_aac.c:188-223 | each message the thread posts schedules exactly one call: the flush completion for 'f' and the stop completion for 's' |
| FdkAacSpec.Notifications | fdk-aac/src/adec_fdk_aac.c:172-185 | at most one notification per completion call, exactly one each when both callbacks are set |
| FdkAacSpec.PopCount | fdk-aac/src/adec_fdk_aac.c:226-252 | an output event pops at most the whole queue, and when it stops early the last frame it popped was one whose information cannot be read |
| FdkAacSpec.PopCountReady | fdk-aac/src/adec_fdk_aac.c:226-252 | every frame popped before the last one was readable, and a queue of readable frames is popped entirely |
| FdkAacSpec.Deliveries | fdk-aac/src/adec_fdk_aac.c:246-249 | while discarding nothing is delivered; otherwise each popped frame is delivered with status 0, in order |
| FdkAac.FdkAacDecoder.constructor | fdk-aac/src/adec_fdk_aac_priv.h:59-80 | the calloc'ed record: no frames, no messages, no codec, every control flag clear |
| FdkAac.FdkAacDecoder.Create | fdk-aac/src/adec_fdk_aac.c:829-921 | any encoding but AAC-LC is -EINVAL with no record; otherwise a fresh record with its control flags clear and the thread launched |
| FdkAac.FdkAacDecoder.Flush | fdk-aac/src/adec_fdk_aac.c:924-936 | sets flush and overwrites the discard flag with the newest value; nothing else changes |
| FdkAac.FdkAacDecoder.Stop | fdk-aac/src/adec_fdk_aac.c:713-726 | sets should_stop and clears the base record's configured flag |
| FdkAac.FdkAacDecoder.Destroy | fdk-aac/src/adec_fdk_aac.c:729-787 | stops, releases the queues, mailbox, codec and pending idle calls, and always succeeds; nothing in the base record but `configured` changes |
| FdkAac.FdkAacDecoder.InputFilter | fdk-aac/src/adec_fdk_aac.c:790-826 | admits exactly when no flush is in progress, no stop is requested, the frame information is readable, the default check passes and the frame is packed; an admitted frame is confirmed (last timestamp, `in` + 1, input time); a refused one changes nothing; the callbacks, configuration, operations and decoder id are never changed |
| FdkAac.FdkAacDecoder.PushInput | fdk-aac/src/adec_fdk_aac.c:790-826 | a pushed frame is appended to the input queue, with its input time, exactly when the filter admits it; then the base record's last timestamp and `in` + 1 are recorded, and the rest of both records is unchanged |
| FdkAac.FdkAacDecoder.GetStreamInfo | fdk-aac/src/adec_fdk_aac.c:289-320 | performs GetStreamInfoSpec on the record |
| FdkAac.FdkAacDecoder.DecodeFrame | fdk-aac/src/adec_fdk_aac.c:323-526 | a missing frame is 0 with no change; otherwise status, stamped frame and new state are those of DecodeSpec |
| FdkAac.FdkAacDecoder.FillCodec | fdk-aac/src/adec_fdk_aac.c:370-384 | performs FillSpec on the record |
| FdkAac.FdkAacDecoder.DecodePushedFrame | fdk-aac/src/adec_fdk_aac.c:386-497 | performs DecodePushed on the record |
| FdkAac.FdkAacDecoder.PushAndDecodeFrame | fdk-aac/src/adec_fdk_aac.c:370-497 | performs PushAndDecode on the record |
| FdkAac.FdkAacDecoder.DecodeUnits | fdk-aac/src/adec_fdk_aac.c:396-497 | its loop performs DecodeLoop on the record |
| FdkAac.FdkAacDecoder.DecodeNext | fdk-aac/src/adec_fdk_aac.c:416-497 | one pass of that loop: either the loop ends with DecodeLoop's result, or DecodeLoop from the new record gives the same result with fewer outcomes left |
| FdkAac.FdkAacDecoder.DecodeUnitStep | fdk-aac/src/adec_fdk_aac.c:433-497 | performs DecodeUnit on the record |
| FdkAac.FdkAacDecoder.StartFlush | fdk-aac/src/adec_fdk_aac.c:529-555 | performs StartFlushSpec, with the corrected status |
| FdkAac.FdkAacDecoder.CompleteFlush | fdk-aac/src/adec_fdk_aac.c:255-286 | performs CompleteFlushSpec and returns 0 |
| FdkAac.FdkAacDecoder.CheckInputQueue | fdk-aac/src/adec_fdk_aac.c:558-607 | its peek-then-pop loop performs CheckInputQueueSpec on the record |
| FdkAac.FdkAacDecoder.DrainHead | fdk-aac/src/adec_fdk_aac.c:561-597 | one turn of that loop performs DrainStep |
| FdkAac.FdkAacDecoder.RunWorker | fdk-aac/src/adec_fdk_aac.c:654-687 | the worker loop performs Run: same exit, same final state, same mailbox |
| FdkAac.FdkAacDecoder.OutQueueEvent | fdk-aac/src/adec_fdk_aac.c:226-252 | pops PopCount frames; delivers them with status 0 unless discarding; `out` grows by the number delivered; an output queue of readable frames is left empty; nothing else in either record changes (control, codec, idle calls, last timestamp, callbacks, operations, configuration, decoder id) |
| FdkAac.FdkAacDecoder.MboxCb | fdk-aac/src/adec_fdk_aac.c:188-223 | empties the mailbox and appends Schedule of its messages to the pending idle calls |
| FdkAac.FdkAacDecoder.ReadMessage | fdk-aac/src/adec_fdk_aac.c:194-222 | reading one message removes it from the mailbox and schedules its call, keeping the calls pending plus those still to schedule the same; nothing else changes |
| FdkAac.FdkAacDecoder.RunIdle | fdk-aac/src/adec_fdk_aac.c:172-185 | runs the pending calls in order: the application gets Notifications of them, and the sentinel is re-armed exactly when a flush completion ran; counters, callbacks, operations, configuration, decoder id and the backend's control, codec and output queue are unchanged |
| FdkAac.FdkAacDecoder.SetAacAsc | fdk-aac/src/adec_fdk_aac.c:939-998 | an unsupported data format is -ENOSYS with the codec untouched; a failed open, a failed raw configuration or a failed concealment parameter is -EPROTO; 0 exactly when all three steps succeed; the record holds the opened codec, after its SetParam call once the raw configuration passed; nothing else changes |
| FdkAac.FdkAacDecoder.PopOutput | fdk-aac/src/adec_fdk_aac.c:232-250 | pops the next output frame and delivers it with status 0 unless discarding; only the output queue, the delivered events and the `out` counter change; the callbacks, operations, configuration and decoder id are among what is kept |
| FdkAac.AdmittedKeepsOrder | fdk-aac/src/adec_fdk_aac.c:808-824 | a frame the filter admits is later than every frame already decoded or queued, so the pipeline stays in timestamp order |
| FdkAacSpec.DeliveriesOneMore | fdk-aac/src/adec_fdk_aac.c:226-252 | popping one more frame adds exactly one frame_output call at the end, or none while discarding |
| Adec.ImplemOps | src/adec.c:40-50 | an operations table exists only for FDK_AAC, and only when it is built |
| Adec.GetImplem | src/adec.c:53-66 | AUTO and FDK_AAC resolve to FDK_AAC when it is built; anything else is -ENOSYS and left unchanged |
| Adec.GetImplemResolves | src/adec.c:53-66 | resolving a resolved implementation changes nothing; it is never AUTO and always has an operations table |
| Adec.GetSupportedInputFormats | src/adec.c:69-82 | -EINVAL without an output pointer, -ENOSYS for an unavailable implementation, else the table and its size |
| Adec.GetAutoImplem | src/adec.c:85-94 | FDK_AAC exactly when it is built, AUTO otherwise |
| Adec.GetAutoImplemByCodedFormat | src/adec.c:97-127 | the first implementation after AUTO that is available and lists the format, or AUTO when there is none or no format is given |
| Adec.AutoImplemByCodedFormatIsTable | src/adec.c:97-127 | FDK_AAC decodes a format exactly when it is built and the format is in its table |
| Adec.NewErrorPathOpsAsWritten | src/adec.c:171-187 | the operations table adec_new's error path reaches adec_destroy with, as written: none when resolution failed |
| Adec.NewErrorPathHasNoOps | src/adec.c:171-187 | a config naming IMPLEM_MAX takes the error path with no operations table, and so does every config when FDK AAC is not built |
| Adec.New | src/adec.c:130-188 | -EINVAL, with the counter untouched, when loop, config, callbacks, frame_output or the output pointer is missing; the id is the counter plus one; success exactly when the implementation resolves and the encoding is AAC-LC, and then `last_timestamp` is the sentinel and the backend record is fresh and linked, with every flag clear, empty queues, mailbox and idle calls, and no codec or latched format |
| Adec.Flush | src/adec.c:191-196 | -EINVAL for NULL; otherwise the backend records the request: flush set and the discard flag overwritten, with nothing else in either record changed |
| Adec.Stop | src/adec.c:199-204 | -EINVAL for NULL; otherwise the backend sets should_stop and the decoder is no longer configured, with nothing else in either record changed |
| Adec.Destroy | src/adec.c:207-229 | NULL is a no-op returning 0; otherwise the backend result is returned and the record is freed exactly when it is 0 |
| Adec.SetAacAsc | src/adec.c:232-250 | -EINVAL for NULL; -EALREADY with nothing changed when already configured; -ENOSYS with the backend untouched without the operation; otherwise the backend's result, with the codec handle it ends up holding and its queues, flags and latch unchanged; afterwards configured exactly when the result is 0, and nothing else in the decoder record changes |
| Adec.GetInputBufferQueue | src/adec.c:261-267 | none for NULL, otherwise the backend's input queue |
| Adec.GetUsedImplem | src/adec.c:270-276 | AUTO for NULL, otherwise the resolved implementation |

## Left out

- Threads, atomics and the event loops. The decoding thread and the main loop are modelled as sequences of steps on one state, and nothing is claimed about interleavings. The worker's waits are a list of `Wake` outcomes. Their 5 ms timeout and the 5 ms sleep after a failed wait are not modelled.
- The FDK AAC library is modelled as outcome scripts. Decoded PCM samples, the AudioSpecificConfig bytes passed to ConfigRaw and the concealment method value are not modelled.
- The fill loop (`while (valid > 0)`) is one Fill call per frame of non-zero size. The model does not capture a codec that takes the bytes in several calls.
- Failures of the buffer library and of the event-loop helpers are not modelled: queue flush, push and pop, peek, buffer allocation, mailbox push and idle-call registration. `mbuf_audio_frame_get_frame_info` and `mbuf_audio_frame_get_buffer` are kept, as a frame's `infoErr` and `bufferErr` (zero or a negative errno).
- A duplicate ancillary key is modelled as a no-op that leaves the frame unchanged.
- `adef_format_intersect` is modelled as membership in the list of formats.
- Timestamps of ancillary data are one `now` value per call. The 64-bit microsecond clock is not modelled.
- Counters are unbounded naturals; the 32-bit wrap-around of `unsigned int` is not modelled.
- `output_size` is an unbounded natural.
- The output buffer handed to the codec for each decoded unit, and its size (`ADEC_DEFAULT_OUTPUT_SIZE` while `output_size` is still 0, `output_size` afterwards), are not modelled: the model passes no buffer to the codec, so the size is not observable.
- Logging, and the instance name (`dec_name`, `xstrdup`, `asprintf`). Allocation failures (`-ENOMEM`) are not modelled.
- The process-wide instance counter is a parameter of `Adec.New`, which returns its new value.
- `adec_get_input_buffer_pool` returns NULL on every path, since the backend has no pool, so it is not modelled.
- The backend's `decoder_queue` field is never used by the code and is not modelled.
- `FdkAac.FdkAacDecoder.Destroy` does not run the decoding thread to its end when it joins it.
- `Adec.Destroy` returns `freed` instead of releasing memory.
- `Adec.GetInputBufferQueue` returns the queue's contents instead of the queue object.
- The command-line tool `tools/adec.c` is not part of this model.
- `AdecCore.DefaultInputFilter` receives the result of the backend's format lookup as parameters, instead of calling through the operations table.

## Findings

| source | as written | input that shows it | evidently intended | confidence | as-written member | corrected member |
|---|---|---|---|---|---|---|
| fdk-aac/src/adec_fdk_aac.c:541-547 | `ret = -EPROTO; ... return -ret;` returns +EPROTO when clearing the codec buffer fails | a discarding flush whose `aacDecoder_SetParam(AAC_TPDEC_CLEAR_BUFFER)` returns any error | return -EPROTO like every other failure path, so the callers' `ret < 0` check reports it | not executed | FdkAacSpec.StartFlushStatusAsWritten | FdkAacSpec.StartFlushStatus |
| src/adec.c:171-187 | when `adec_get_implem` fails, the error path calls `adec_destroy(self)`, which calls `self->ops->destroy` while `ops` is still NULL | `adec_new` with `config->implem == ADEC_DECODER_IMPLEM_MAX`, or any config when FDK AAC is not built | return the resolution error after freeing the record, without calling into the missing operations table | not executed | Adec.NewErrorPathOpsAsWritten | Adec.New |
