# katana-usb-audio in Dafny

A model of the Linux kernel driver for the Creative SoundBlaster X Katana.
The driver exposes the speaker as an ALSA sound card with one playback stream
and two mixer controls. The model covers three parts of it:

- **The playback stream** (`src/pcm.c`, modules `PcmMath` and `KatanaPcm`).
  - `KatanaPcm.PcmStream` is the per-stream record `katana_pcm_data`. Its
    scalar fields are held as one `StreamState` value in the field `st`,
    which the callbacks replace.
  - The URB pool is an `array?<Urb>` and the slot buffers are an
    `array2?<byte>` (one row per slot). Both are `null` while no pool is
    allocated. A ghost counter tracks the live kernel allocations.
  - The ALSA buffer (`runtime->dma_area`, `dma_bytes` long) is an `array?<byte>`.
  - Methods model `hw_params`, `hw_free`, `close`, `prepare`, `trigger`,
    `pointer`, `copy` and `katana_urb_complete`. Loops become Dafny loops
    with invariants: submit with roll-back, cancel, free, allocate,
    `memset`/`memcpy`.
  - Each method is specified against pure state functions (`StoreParams`,
    `PreparedState`, `TriggerState`, `CompleteState`, …). Lemmas are proved
    about those functions and about the integer rules in `PcmMath`: the
    buffer-bytes rule, the parameter checks, the modular cursors, the
    two-segment wrap-around copy, and the first failing submission.
- **The mixer controls** (`src/control.c`, modules `VolumeMath` and
  `KatanaControl`).
  - `VolumeMath` holds the pure conversions: percent↔raw, steps↔raw, the
    info step count, the inverted mute byte, the little-endian int16
    layout, and the fallback range.
  - `KatanaControl.Mixer` holds the module-global range
    (`katana_vol_min/max/res`, `katana_vol_range_initialized`). It also keeps
    a log of every USB control transfer issued, in order.
  - The device is an oracle: each call is given what allocation returns and
    what each transfer returns or delivers.
  - The request codes follow section 5.2.2.4.3 and appendix A.9, and the
    Feature Unit control selectors appendix A.10.2, of the USB Device Class
    Definition for Audio Devices 1.0.
- **The disconnect gate and the card's readiness** (`src/katana_usb_audio.c`,
  module `KatanaUsbAudio`).
  - `OperationGate` holds `disconnect_in_progress`, `active_operations` and
    the completion, with `Enter`/`Exit`.
  - `AudioDriver` holds the card and the two readiness flags, with `Probe`
    and `Disconnect`.
  - Each call is one atomic step. Pure step functions and lemmas about runs
    of calls sit beside the classes.

`KernelTypes` holds the shared kernel conventions:
- the `byte` type and the error numbers;
- `unsigned int` wrap-around (`U32`);
- `int16_t` and `int` narrowing (`Int16`, `Int32`);
- C's truncating division (`CDiv`).

## Model

| member | source | states |
|---|---|---|
| KatanaUsbAudio.EnterStep | src/katana_usb_audio.c:46-62 | enter returns 0 exactly when no disconnect is in progress; a refusal is -ENODEV and leaves the counter unchanged; entry never touches the flag or the completion |
| KatanaUsbAudio.ExitStep | src/katana_usb_audio.c:64-72 | exit lowers the counter by exactly one. The completion is signalled exactly when the counter reaches 0 during a disconnect, and stays signalled once it is |
| KatanaUsbAudio.BeginDisconnect | src/katana_usb_audio.c:207-220 | the flag is raised and the counter kept; the completion is re-armed exactly when disconnect will wait, and otherwise keeps its state |
| KatanaUsbAudio.MustWait | src/katana_usb_audio.c:216 | disconnect waits exactly when the counter is positive (its consequences are WaitEndsAtLastExit and the two lemmas on late exits) |
| KatanaUsbAudio.FinishDisconnect | src/katana_usb_audio.c:232-234 | as written: the flag is lowered and the counter set to 0 whatever is still outstanding (its consequence is LateExitsHideActiveOperation) |
| KatanaUsbAudio.FinishDisconnectKeepingCount | src/katana_usb_audio.c:232-234 | (corrected) the flag is lowered and the counter kept; it agrees with the code whenever the wait completed, that is with the counter at 0 |
| KatanaUsbAudio.Run | src/katana_usb_audio.c:46-72 | a sequence of enter and exit calls yields one return value per enter |
| KatanaUsbAudio.ClosedGateRefusesEntry | src/katana_usb_audio.c:46-62 | once the flag is set, every enter in any sequence of calls returns -ENODEV, the flag stays set, and the counter only drops, by the number of exits |
| KatanaUsbAudio.EnterExitRestores | src/katana_usb_audio.c:46-72 | with no disconnect in progress, a successful enter followed by an exit leaves the gate exactly as before |
| KatanaUsbAudio.WaitEndsAtLastExit | src/katana_usb_audio.c:214-226 | when disconnect has to wait for n operations, after k exits n-k remain, and the completion is signalled exactly at the n-th exit |
| KatanaUsbAudio.LateExitsHideActiveOperation | src/katana_usb_audio.c:232-234 | the reset to 0 after a timed-out wait lets late exits drive the counter negative, so a later disconnect does not wait for an operation that entered afterwards |
| KatanaUsbAudio.KeptCountSeesLaterOperation | src/katana_usb_audio.c:232-234 | (corrected) with the counter kept, the k operations left by a timed-out wait bring it down to exactly 0 and never below; an operation entering afterwards is counted and the next disconnect waits for it |
| KatanaUsbAudio.OperationGate.constructor | src/katana_usb_audio.c:32-34 | the gate starts with the flag clear, the counter at 0 and the completion not signalled |
| KatanaUsbAudio.OperationGate.Enter | src/katana_usb_audio.c:46-62 | the new gate and the return value are those of EnterStep |
| KatanaUsbAudio.OperationGate.Exit | src/katana_usb_audio.c:64-72 | the new gate is that of ExitStep |
| KatanaUsbAudio.AudioDriver.constructor | src/katana_usb_audio.c:27-34 | no card, both readiness flags clear, a fresh gate |
| KatanaUsbAudio.AudioDriver.Probe | src/katana_usb_audio.c:74-194 | a foreign interface gives -ENODEV and changes nothing; a card is created only when there is none and is never replaced; probing never clears a flag; the card is registered only when both interfaces are ready, and on success it is registered once both are |
| KatanaUsbAudio.AudioDriver.BeginTeardown | src/katana_usb_audio.c:207-226 | raises the flag first and waits exactly when operations are active (BeginDisconnect, MustWait) |
| KatanaUsbAudio.AudioDriver.FinishTeardown | src/katana_usb_audio.c:228-234 | drops the card and lowers the flag; (corrected) the counter is kept, as FinishDisconnectKeepingCount |
| KatanaUsbAudio.AudioDriver.Disconnect | src/katana_usb_audio.c:196-241 | with a card, the gate ends as FinishDisconnectKeepingCount(BeginDisconnect(old gate)); in every case no card is left and both readiness flags are cleared |
| PcmMath.BufferConstraint | src/pcm.c:106-124 | the rule only narrows the buffer-bytes interval. Afterwards min is at least period_min·periods_min and max at most period_max·periods_max (32-bit products). A bound moves only to its product |
| PcmMath.BufferConstraintIdempotent | src/pcm.c:106-124 | applying the rule a second time changes nothing |
| PcmMath.BufferConstraintKeepsConsistentSizes | src/pcm.c:114-121 | a buffer size that is an allowed period size times an allowed period count and was admitted before stays admitted (sound narrowing) |
| PcmMath.ValidateHwParams | src/pcm.c:348-364 | the result is 0 or -EINVAL; it is -EINVAL when buffer_bytes is not the 32-bit product of period_bytes and periods, and when buffer_bytes is outside [2048, 32768] |
| PcmMath.ValidateHwParamsExact | src/pcm.c:348-364 | without wrap-around, acceptance holds exactly when buffer_bytes = period_bytes·periods and 2048 ≤ buffer_bytes ≤ 32768 |
| PcmMath.ConstrainedConfigurationsAccepted | src/pcm.c:56-84 | every configuration within the advertised period limits passes the checks, with period_bytes ≤ buffer_bytes ≤ buffer_bytes_max |
| PcmMath.LargePeriodsRefused | src/pcm.c:357-364 | a buffer of 8 periods of 6144 bytes is refused with -EINVAL |
| PcmMath.FrameBytesAreWholeBytes | src/pcm.c:720 | `channels * physical_width / 8` in unsigned int: for a product that fits in 32 bits, the whole bytes of one frame, less than one byte short of the bit count |
| PcmMath.AdvanceCursor | src/pcm.c:723-726 | the 32-bit add-then-subtract-once cursor update always yields an unsigned int value (its modular meaning is AdvanceCursorIsModular) |
| PcmMath.AdvanceCursorIsModular | src/pcm.c:722-726 | the add-then-subtract-once cursor update is (start + n) mod size whenever start + n < 2·size (and fits in 32 bits) |
| PcmMath.AdvanceCursorStaysInBuffer | src/pcm.c:687-689 | a cursor inside the buffer, advanced by at most one buffer, stays inside and equals (ptr + n) mod size |
| PcmMath.WrapSegments | src/pcm.c:748-762 | first_part + second_part = copy_size; both segments lie in [0, dma_bytes); there is no second segment when nothing wraps; byte k of the copy comes from ring byte copy_offset + k, less dma_bytes once past the end |
| PcmMath.RingIndexIsModular | src/pcm.c:752-761 | that one subtraction past the end is ring byte (copy_offset + k) mod dma_bytes |
| PcmMath.FirstFailure | src/pcm.c:537-544 | every submission before the returned slot succeeded, and the one at it (if any) failed |
| PcmMath.PointersAfterAllocAsWritten | src/pcm.c:785-857 | a successful allocation leaves all three pool pointers live (the failure paths are in AllocFailureLeavesDanglingPool) |
| PcmMath.AllocFailureLeavesDanglingPool | src/pcm.c:796-856 | as written, every failure after the first kzalloc leaves data->urbs dangling, so the next free is unsafe |
| PcmMath.DanglingPoolExample | src/pcm.c:796-800 | a failing second kzalloc leaves data->urbs pointing at freed memory |
| KatanaPcm.StoreParams | src/pcm.c:338-343 | hw_params stores the negotiated sizes and leaves the cursors and flags alone |
| KatanaPcm.OpenedState | src/pcm.c:200-226 | the record open allocates: attached, device valid, every size, cursor and flag zero (the state of PcmStream.constructor) |
| KatanaPcm.PreparedState | src/pcm.c:468-471 | prepare sets hw_ptr = appl_ptr = 0, prepared, and not running, leaving stream_started |
| KatanaPcm.TriggerState | src/pcm.c:529-586 | START sets both flags to whether every slot was submitted and hw_ptr to 0; STOP clears both flags; PAUSE_PUSH/RELEASE change only running; other commands change nothing |
| KatanaPcm.Gated | src/pcm.c:491-503 | every trigger command but STOP passes the disconnect gate, unknown ones included (used by Trigger) |
| KatanaPcm.TriggerError | src/pcm.c:529-586 | START returns 0 exactly when every submission succeeded, otherwise the first failing slot's error; a non-START command returns 0 exactly for STOP and the two PAUSE commands, and -EINVAL otherwise |
| KatanaPcm.CompleteState | src/pcm.c:713-736 | a completion counts only while started; status 0 moves hw_ptr by the whole frames taken with a single wrap; any other status changes nothing; only hw_ptr ever changes |
| KatanaPcm.Refills | src/pcm.c:739 | a completion refills and resubmits its slot only while started and running and with status 0 |
| KatanaPcm.PeriodElapsed | src/pcm.c:779 | a period is reported for a successful completion while started, running or paused |
| KatanaPcm.FailedCompletionIsInert | src/pcm.c:728-736 | -ENOENT, -ECONNRESET, -ESHUTDOWN or any other negative status leaves hw_ptr unchanged, does not resubmit and reports no period |
| KatanaPcm.CompletionsKeepHwPtrInRing | src/pcm.c:722-726 | over any run of completions, each of at most one buffer of frames, hw_ptr stays below buffer_size |
| KatanaPcm.CompletionStaysInRing | src/pcm.c:722-726 | one successful completion of at most one buffer of frames leaves hw_ptr below buffer_size |
| KatanaPcm.CompletionAdvancesModulo | src/pcm.c:722-726 | a successful completion sets hw_ptr to (hw_ptr + actual_length/frame_size) mod buffer_size |
| KatanaPcm.CopySize | src/pcm.c:740-742 | copy_size is the whole frames of one slot: at most urb_buffer_size and less than one frame short of it |
| KatanaPcm.CopyOffset | src/pcm.c:748 | copy_offset lies inside the ring |
| KatanaPcm.ByteOffset | src/pcm.c:666-667 | as written: the argument scaled by the frame size as bytes, stored in an unsigned int; exact below 2^32 |
| KatanaPcm.CopyOverrunAsWritten | src/pcm.c:666-689 | as written: for stereo S16 in a 2048-frame ring, a byte request 4096..5119 inside the 8192-byte ring is written from byte 16384 onward, and appl_ptr ends at 3072, past the ring |
| KatanaPcm.CopyKeepsApplPtrInRing | src/pcm.c:687-689 | (corrected) a byte range inside the ring, converted to frames, moves appl_ptr one step modulo buffer_size and keeps it inside the ring |
| KatanaPcm.ProvisionedState | src/pcm.c:385-389 | after provisioning: 8 slots of one period each, stream_started cleared, cursors kept |
| KatanaPcm.ZeroRow | src/pcm.c:539 | the slot buffer is all zero and every other slot is unchanged |
| KatanaPcm.CopyToRow | src/pcm.c:752-761 | the copied bytes equal the ring bytes at the source offset; everything else is unchanged |
| KatanaPcm.CancelSlots | src/pcm.c:546-548 | slots below count are no longer in flight; the rest are unchanged |
| KatanaPcm.ReleaseSlots | src/pcm.c:843-851 | slots below count are released; the rest are unchanged |
| KatanaPcm.SubmitSlots | src/pcm.c:537-555 | returns the first failing slot; the slots before it are in flight; the slots up to it are silenced; later slots are untouched |
| KatanaPcm.AllocSlots | src/pcm.c:810-837 | fails exactly when a slot fault falls inside the pool; on success every slot is allocated; on failure the slots before the failing one are allocated, the failing one holds a released URB after a buffer failure and none after a URB failure, and later slots hold none |
| KatanaPcm.PcmStream.constructor | src/pcm.c:200-226 | the record as open creates it: attached, device valid, every size, cursor and flag zero, no pool, no buffer |
| KatanaPcm.PcmStream.FreeUrbBuffers | src/pcm.c:860-892 | with no pool it changes nothing; otherwise every slot ends released and the three pointers are cleared, so a second call does nothing |
| KatanaPcm.PcmStream.AllocUrbBuffers | src/pcm.c:785-857 | on success a complete pool of idle slots. Any failure returns -ENOMEM, and every slot of the URB array it allocated (the ghost result `pool`) is released or empty, so no URB is leaked; (corrected) the pointers are cleared |
| KatanaPcm.PcmStream.ProvisionBuffers | src/pcm.c:369-399 | a fresh ALSA buffer, the old pool released, a new pool of 8 one-period slots; on pool failure -ENOMEM and the ALSA buffer freed again |
| KatanaPcm.PcmStream.ApplyHwParams | src/pcm.c:337-399 | a refused configuration returns -EINVAL and the malloc error is returned as is, with the pool untouched; otherwise the outcome of ProvisionBuffers; success leaves an idle pool whose slots fit in the ALSA buffer |
| KatanaPcm.PcmStream.HwParams | src/pcm.c:309-405 | a closed gate or an invalid record returns -ENODEV with nothing changed; otherwise as ApplyHwParams; the gate is left as found |
| KatanaPcm.PcmStream.HwFree | src/pcm.c:408-437 | never gated, always 0; with a record, stream_started is cleared, the pool released and the ALSA buffer freed |
| KatanaPcm.PcmStream.Close | src/pcm.c:286-306 | never gated, always 0; with a record, stream_started is cleared, the pool released and the record detached |
| KatanaPcm.PcmStream.Prepare | src/pcm.c:440-479 | returns 0 exactly when the gate and the record admit it, and then the record is PreparedState; otherwise -ENODEV with nothing changed |
| KatanaPcm.PcmStream.StartStreaming | src/pcm.c:530-558 | the flags and error as TriggerState/TriggerError. Slots before the first failure are in flight, or cancelled again when one failed. Every slot up to it is silenced |
| KatanaPcm.PcmStream.StopStreaming | src/pcm.c:560-570 | both flags cleared and every slot cancelled |
| KatanaPcm.PcmStream.Trigger | src/pcm.c:482-591 | STOP is never refused by a disconnect, every other command is refused with -ENODEV. Past the checks, the error and flags are TriggerError/TriggerState. PAUSE and unknown commands leave the slots alone |
| KatanaPcm.PcmStream.Pointer | src/pcm.c:594-626 | 0 without a valid record; hw_ptr when not running; frames_played mod buffer_size, below buffer_size, when running |
| KatanaPcm.PcmStream.WriteRing | src/pcm.c:670 | the delivered bytes land at the offset, and nothing else in the ring changes |
| KatanaPcm.PcmStream.Copy | src/pcm.c:629-698 | (corrected) -ENODEV when refused and -ENOMEM without a buffer. A short source gives -EFAULT with appl_ptr kept. Otherwise `count` bytes of the source land at byte `pos` of the ring, nothing else in it changes, and appl_ptr becomes AdvanceCursor(pos/frame, count/frame, buffer_size) |
| KatanaPcm.PcmStream.RefillSlot | src/pcm.c:740-766 | byte k of the slot is ring byte (copy_offset + k) mod dma_bytes for every k below copy_size, or the slot is silence without a ring; other slots are unchanged |
| KatanaPcm.PcmStream.Complete | src/pcm.c:701-782 | the record becomes CompleteState. The slot is back in flight exactly when the stream runs, the status is 0 and the resubmission succeeds, and it is refilled as RefillSlot states. A period is reported exactly when started with status 0 |
| VolumeMath.PackUnpack | src/control.c:125-126 | unpacking the two packed bytes gives back the int16 volume (for any int, its int16 truncation) |
| VolumeMath.PackLE16 | src/control.c:125-126 | a volume is sent as exactly two bytes (low byte first, as PackUnpack and UnpackPack state) |
| VolumeMath.UnpackLE16 | src/control.c:315 | two reply bytes decode to an int16 |
| VolumeMath.UnpackPack | src/control.c:315 | packing an unpacked byte pair gives back the same two bytes |
| VolumeMath.MuteRoundTrip | src/control.c:400 | reading back the byte sent gives the switch value as 0/1; the byte is 0 exactly when mute is asked for |
| VolumeMath.MuteByteRoundTrip | src/control.c:468 | the decoded state is muted exactly when the device byte is 0, and sending it back reproduces the byte as 0/1 |
| VolumeMath.MuteByte | src/control.c:400 | the mute byte sent is 0 or 1 (inverted, as MuteRoundTrip states) |
| VolumeMath.MuteFromByte | src/control.c:468 | the decoded switch value is 0 or 1 |
| VolumeMath.PercentToRaw | src/control.c:197-213 | 0% or below gives min, 100% or above gives max, and the value is always an int16 |
| VolumeMath.PercentToRawInRange | src/control.c:203 | without quantisation, percent→raw stays in [min, max] when min ≤ max |
| VolumeMath.PercentToRawQuantised | src/control.c:206-209 | with res > 1 dividing max-min, the rounded value is in [min, max] and a whole number of steps above min |
| VolumeMath.PercentToRawOnGrid | src/control.c:206-209 | for any res > 1 and a max at least half a step below the int16 limit, the rounded value is a whole number of steps above min, at least min and at most half a step above max |
| VolumeMath.PercentToRawOvershoot | src/control.c:206-209 | when res does not divide the range, rounding to the nearest step can exceed max (99% of [-10, 0] in steps of 6 gives 2) |
| VolumeMath.RawToPercentBounds | src/control.c:370-377 | raw→percent is always in [0, 100], is 0 at or below min, is 100 at or above max, and is below 100 strictly inside |
| VolumeMath.RawToPercent | src/control.c:370-377 | the percentage reported is in [0, 100], and 0 at or below min |
| VolumeMath.PercentRoundTrip | src/control.c:197-213 | on a range at least 100 wide without quantisation, setting p% and reading back gives p or p-1, exactly p at 0% and 100% |
| VolumeMath.InfoSteps | src/control.c:565-568 | with min ≤ max and a positive resolution the info maximum is non-negative and steps times res fits in the range |
| VolumeMath.StepsToRaw | src/control.c:527-531 | after the clamp the raw volume is an int16 in [min, max] (when min ≤ max) |
| VolumeMath.StepsWithinInfo | src/control.c:501 | for min ≤ raw ≤ max, volume_get's steps lie between 0 and the info maximum |
| VolumeMath.RawToSteps | src/control.c:501 | a raw value below min gives 0 steps, and with a positive resolution the count is never negative |
| VolumeMath.StepsNarrowingInvisible | src/control.c:524-527 | narrowing the long control value to int before the conversion does not change the raw volume |
| VolumeMath.StepsRoundTrip | src/control.c:501-531 | putting any step count in [0, info max] and reading it back gives the same count |
| VolumeMath.RawRoundTrip | src/control.c:501-531 | reading a raw volume on the step grid and putting the count back gives the same raw volume |
| VolumeMath.OversizedStepsWrapToMinimum | src/control.c:527-531 | because the int16 truncation comes before the clamp, a count far above the info maximum ends at min, not max |
| VolumeMath.ReplyValue | src/control.c:47-53 | a received reply is decoded little-endian, and a failed one gives the fallback |
| VolumeMath.RangeFromRepliesAsWritten | src/control.c:36-97 | the installed range is well-formed int16 |
| VolumeMath.ZeroResolutionAccepted | src/control.c:85-96 | as written, a GET_RES reply of 0 is installed as the resolution |
| VolumeMath.RangeFromReplies | src/control.c:36-97 | (corrected) the installed resolution is always at least 1 |
| VolumeMath.RangeFallbacks | src/control.c:47-92 | each failed query falls back to -20480, 0 and 1 respectively; each received one is decoded; only a non-positive resolution differs from the code as written |
| VolumeMath.AllFailedGivesDefault | src/control.c:12-14 | three failed queries give the default range -20480..0 step 1 |
| KatanaControl.VolumeSetSemantics | src/control.c:134-170 | a volume write returns 0 exactly when both channels were sent and accepted; every transfer is a SET_CUR of the left or right volume control carrying the value in little-endian order |
| KatanaControl.MuteSetSemantics | src/control.c:393-426 | a mute write returns 0 exactly when it was allocated and accepted; it sends one byte that reads back as the switch value |
| KatanaControl.MuteNarrowing | src/control.c:602 | narrowing the long control value to int decides the byte: the switch mutes exactly when the value is not a multiple of 2^32, so 2^32 unmutes |
| KatanaControl.RangeAfterInit | src/control.c:110-115 | the lazy query leaves the range alone once initialized or without a buffer, and keeps a well-formed range with positive resolution well-formed |
| KatanaControl.VolumeSetResult | src/control.c:134-170 | the volume write returns 0 exactly when the buffer was allocated and both channels accepted, and never a positive value |
| KatanaControl.MuteSetResult | src/control.c:393-426 | the mute write returns 0 exactly when the buffer was allocated and the transfer accepted, and never a positive value |
| KatanaControl.RawRead | src/control.c:286-320 | the raw read returns the decoded reply, or min when allocation or the request fails |
| KatanaControl.Mixer.constructor | src/control.c:12-15 | the globals start at -20480, 0, 1, not initialized, with nothing sent |
| KatanaControl.Mixer.GetVolumeRange | src/control.c:23-101 | -ENOMEM with nothing changed when the buffer cannot be allocated; otherwise GET_MIN, GET_MAX, GET_RES are sent, the range becomes RangeFromReplies, the flag is set, and 0 is returned |
| KatanaControl.Mixer.EnsureRange | src/control.c:110-115 | the range query runs only while not initialized |
| KatanaControl.Mixer.SetHardwareVolumeRaw | src/control.c:104-171 | after the lazy initialization, the left channel then (unless it failed) the right one are sent, and the result is VolumeSetResult |
| KatanaControl.Mixer.SetHardwareVolume | src/control.c:174-269 | the percentage converted with the current range is written to both channels; a successful write above 0% is followed by an unmute whose result is ignored |
| KatanaControl.Mixer.GetHardwareVolumeRaw | src/control.c:272-321 | the result is RawRead under the range after the lazy initialization |
| KatanaControl.Mixer.GetHardwareVolume | src/control.c:324-383 | -1 when the read fails, otherwise RawToPercent of the decoded reply, in [0, 100] |
| KatanaControl.Mixer.SetHardwareMute | src/control.c:386-427 | -ENOMEM without a buffer, the transfer's error if it fails, else 0, with the inverted byte sent |
| KatanaControl.Mixer.GetHardwareMute | src/control.c:430-472 | -1 when the read fails, otherwise the switch decoded from the inverted byte |
| KatanaControl.Mixer.VolumeGet | src/control.c:485-506 | 0 without a device; otherwise RawToSteps of the raw read, between 0 and the info maximum for a raw value in range; the callback returns 0 |
| KatanaControl.Mixer.VolumePut | src/control.c:508-538 | the raw value written is the clamped StepsToRaw under the current range, within [min, max], the same whether or not the long is first narrowed to int; the range is initialized afterwards exactly when it was before or either lazy query got its buffer; returns 1 exactly when the write succeeded, otherwise 0 |
| KatanaControl.Mixer.VolumeInfo | src/control.c:540-574 | the range is queried only with a device and before initialization; the control ranges over 0 to InfoSteps |
| KatanaControl.Mixer.MuteGet | src/control.c:577-593 | 1 (muted) without a device or when the read fails, otherwise the decoded switch |
| KatanaControl.Mixer.MutePut | src/control.c:595-610 | the byte sent is that of the value narrowed to int; returns 1 exactly when the mute write succeeded, otherwise 0; nothing is sent without a device |

## Left out

These are left out of the model:

- **The double-check in `katana_enter_operation`.** Its re-read of the flag
  after the increment (src/katana_usb_audio.c:54-59) cannot fire when each
  call is one atomic step.
- **Concurrency and time.**
  - Atomics and spinlocks.
  - The wait for the completion and its 10 s timeout. Disconnect is modelled
    as one step that may have given up waiting.
  - Interleaving of completion callbacks with other callbacks.
  - The wait inside `snd_card_free` (src/katana_usb_audio.c:229) for the
    card's open files to be released. It may already drain the gated PCM
    callbacks before the gate is reset.
- **`jiffies` and `HZ` in `katana_pcm_pointer`.** The frame estimate is the
  parameter `framesPlayed`. `start_time` is not stored.
- **Values the model does not keep.**
  - `snd_pcm_format_physical_width` is the stored `physicalWidth`, and the
    sample format itself is not kept.
  - `active_urbs`, the spinlock and the DMA addresses themselves are not
    kept; the DMA address array is covered only by the pointer-state finding.
- **USB and ALSA calls become oracle parameters.**
  - `usb_submit_urb`, `usb_alloc_urb`, `usb_alloc_coherent` and `kzalloc`
    are given as outcomes: `submitErr`, `resubmitErr`, `AllocFault`,
    `allocOk`.
  - `usb_control_msg` is given as `Reply` values and statuses.
  - `snd_pcm_lib_malloc_pages` is the error `mallocErr`. On success it is a
    fresh buffer of `buffer_bytes`; reusing a buffer of the same size is not
    modelled.
  - `copy_from_iter` is the byte sequence the iterator can deliver.
  - `snd_card_ref`'s index search is the parameter `freeIndex`.
  - `snd_card_new`, `snd_ctl_*`, `katana_pcm_new` and `snd_card_register`
    are the booleans in `ProbeOutcome`.
- **The fields of `usb_fill_bulk_urb`** (endpoint, callback) are not
  modelled. Transfers of the stream are slot states.
- **`katana_pcm_new` and the rest of `katana_pcm_playback_open`.** The
  constraint registration and the `-ENOMEM`/`-ENODEV` paths of open are not
  part of this model. The constructor models open's successful
  initialization. Rates and channel lists are constants that no modelled
  rule consumes.
- **`katana_pcm_invalidate_usb_dev`.** It does nothing, so `usb_dev_valid` is
  never cleared. The model keeps the flag and its checks.
- **`usb.h`.** It is not part of this model, so `AUDIO_CONTROL_IFACE_ID` and
  `AUDIO_STREAM_IFACE_ID` are constructor parameters of `AudioDriver`.
- **Initial contents of fresh buffers.** A fresh ALSA buffer, or slot
  buffers from `usb_alloc_coherent`, are zero-filled arrays in Dafny. With
  no ring, the code fills the slot with silence, and the model states that
  explicitly.
- **Short transfers.** A GET reply shorter than requested is not modelled:
  a `Received` reply has the requested length. The stale buffer the code
  would then decode is not represented.
- **Logging.** `pr_*` and `dev_*` output is not modelled.
- **64-bit intermediate products.** The as-written byte offsets of `copy`
  are computed in `unsigned long` and then stored in `unsigned int`.
  `ByteOffset` computes them unbounded and applies `U32` only on the store.
- **Integer narrowing of control values.** ALSA passes control values as
  `long`. `VolumePut` and `MutePut` narrow them to `int` with `Int32`, as
  the code does. For the volume this is harmless, because the int16 raw
  value depends only on the steps modulo 2^16 (`StepsNarrowingInvisible`).
  For the switch it is visible: 2^32 unmutes (`MuteNarrowing`).
- **Preconditions the ALSA core guarantees rather than the driver.**
  - `Trigger`: the pool exists, or has no slots, whenever `trigger` runs. It
    runs after `hw_params`.
  - `Trigger`: one submission outcome is given per slot.
  - `Copy`: the byte range `pos + count` lies inside the buffer, which the
    ALSA core checks before it calls the `copy` callback, and a frame is at
    least one byte, since the callback runs only after `hw_params` fixed the
    format.
  - `Pointer`: the buffer holds at least one frame while running. ALSA calls
    `pointer` only after `hw_params` fixed a buffer_size of at least 1.
  - `Complete` and `RefillSlot`: the slot was in flight and a frame is at
    least one byte.
  - `Complete` and `RefillSlot`: one period fits in the ALSA buffer, which
    `HwParams` establishes whenever it succeeds.
- **The kill loop.** `usb_kill_urb` is called under a spinlock in the START
  roll-back and in STOP (src/pcm.c:546-548, 565-567). It is modelled only by
  its effect on slot state.
- **`katana_mute_info`.** The mute control's constant info (0..1) is not
  modelled.
- **Pause and completions.** A PAUSE_RELEASE after completions arrived during
  the pause leaves those slots idle, because nothing resubmits them. The
  model shows this through `Trigger` (PAUSE leaves slots unchanged) and
  `Complete` (no refill while not running). No lemma about the resulting
  stall is stated.
- **Buffer limits.** The code's limit of 4096 bytes per period
  (src/pcm.c:79-83) refuses a buffer of 8 periods of 6144 bytes
  (`LargePeriodsRefused`).
- **`VolumeMath.PercentToRawQuantised`.** Its [min, max] bound is stated
  only for a resolution that divides the range. Otherwise the rounding can
  overshoot max, as `PercentToRawOvershoot` shows. Its other half, that the
  rounded value is a whole number of steps above min, holds for every
  resolution above 1 as long as the value does not wrap in int16; that is
  `PercentToRawOnGrid`.

## Findings

| source | as written | input that shows it | evidently intended | confidence | as-written member | corrected member |
|---|---|---|---|---|---|---|
| src/pcm.c:796-856 | The failure paths of `katana_alloc_urb_buffers` kfree the arrays but leave `data->urbs`, `data->urb_buffers` and `data->urb_dma_addrs` pointing at them. `katana_free_urb_buffers` returns early only for a NULL `urbs`, so the next hw_free, close or hw_params kills, frees and kfree's released memory | the second kzalloc fails (`BufferArrayFails`), then `hw_free` | clear the pointers on every failure path, so a later free finds no pool | high (not executed) | PcmMath.AllocFailureLeavesDanglingPool | KatanaPcm.PcmStream.AllocUrbBuffers |
| src/control.c:85-96 | a GET_RES reply of 0 is installed as `katana_vol_res`, and `katana_volume_get` and `katana_volume_info` then divide by it (src/control.c:501, 565) | the device answers GET_RES with bytes 00 00 | treat a non-positive resolution like a failed query and fall back to 1 | medium (not executed) | VolumeMath.ZeroResolutionAccepted | VolumeMath.RangeFromReplies |
| src/pcm.c:666-689 | `katana_pcm_copy` is registered as the iov_iter `copy` callback, which receives its position and length in bytes. The code scales both by the frame size once more before the copy, and it compares the byte sum `pos + count` with `buffer_size`, which counts frames | stereo S16 (4 bytes a frame), a 2048-frame ring of 8192 bytes, pos = 4096 and count = 1024 bytes: the write starts at byte 16384 and appl_ptr ends at 3072 | copy `count` bytes at byte `pos` and advance appl_ptr by the frames they hold, modulo buffer_size | high (not executed) | KatanaPcm.CopyOverrunAsWritten | KatanaPcm.PcmStream.Copy |
| src/katana_usb_audio.c:232-234 | after a wait that timed out, disconnect sets `active_operations` to 0 while operations are still inside the gate. This needs an operation still inside after `snd_card_free` (line 229) returns; that call waits for the card's files to be released, and the gated operations are PCM callbacks on an open PCM file, so the window is narrower than the timeout alone suggests (the model does not represent that wait); their exits then drive the counter negative, and an operation that enters later leaves it at 0 or below, so the next disconnect neither waits for it nor re-arms the completion | one operation still inside when the 10 s wait times out; it exits, a new operation enters, and the device is disconnected again | lower the flag but keep the counter, which the late exits bring back to 0 | low: depends on an operation outliving `snd_card_free`, which the model leaves out (not executed) | KatanaUsbAudio.LateExitsHideActiveOperation | KatanaUsbAudio.KeptCountSeesLaterOperation |
