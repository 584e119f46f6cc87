/** The playback stream of src/pcm.c: the per-stream record
    `katana_pcm_data`, its pool of transfer slots (URBs with their coherent
    buffers) and the ALSA buffer it plays from. */
module KatanaPcm {
  import opened KernelTypes
  import opened PcmMath
  import opened KatanaUsbAudio

  /** The state of one URB of the pool. `Unallocated` is a NULL entry of the
      kzalloc'd array, `Released` a URB that usb_free_urb has given back. */
  datatype Urb = Unallocated | Idle | InFlight | Released

  /** The values katana_pcm_hw_params reads out of `snd_pcm_hw_params`
      (params_buffer_size, params_period_size, ... and the format's physical
      width). */
  datatype HwParams = HwParams(
    bufferSize: nat, periodSize: nat, periodBytes: nat,
    channels: nat, rate: nat, physicalWidth: nat,
    bufferBytes: nat, periods: nat)

  /** The scalar fields of `katana_pcm_data`; `attached` says whether
      runtime->private_data still points at it. */
  datatype StreamState = StreamState(
    attached: bool, usbDevValid: bool,
    numUrbs: nat, urbBufferSize: nat,
    bufferSize: nat, periodSize: nat, periodBytes: nat,
    channels: nat, rate: nat, physicalWidth: nat,
    hwPtr: nat, applPtr: nat,
    running: bool, prepared: bool, streamStarted: bool)

  /** The record as katana_pcm_playback_open initialises it (src/pcm.c:200-226). */
  function OpenedState(): StreamState
  {
    StreamState(true, true, 0, 0, 0, 0, 0, 0, 0, 0, 0, 0, false, false, false)
  }

  /** The parameters hw_params stores before it validates them (src/pcm.c:338-343). */
  function StoreParams(s: StreamState, p: HwParams): (r: StreamState)
    ensures r.bufferSize == p.bufferSize && r.periodBytes == p.periodBytes && r.channels == p.channels
    ensures r.hwPtr == s.hwPtr && r.applPtr == s.applPtr && r.running == s.running
    ensures r.prepared == s.prepared && r.streamStarted == s.streamStarted
  {
    s.(bufferSize := p.bufferSize, periodSize := p.periodSize, periodBytes := p.periodBytes,
       channels := p.channels, rate := p.rate, physicalWidth := p.physicalWidth)
  }

  /** katana_pcm_prepare (src/pcm.c:468-471). */
  function PreparedState(s: StreamState): (r: StreamState)
    ensures r.hwPtr == 0 && r.applPtr == 0 && r.prepared && !r.running
    ensures r.streamStarted == s.streamStarted && r.bufferSize == s.bufferSize
  {
    s.(hwPtr := 0, applPtr := 0, prepared := true, running := false)
  }

  /** The flags a command leaves (src/pcm.c:529-586); `started` says whether
      every slot of a START was submitted. */
  function TriggerState(s: StreamState, cmd: int, started: bool): (r: StreamState)
    ensures cmd == TRIGGER_START ==> r.hwPtr == 0 && r.running == started && r.streamStarted == started
    ensures cmd == TRIGGER_STOP ==> !r.running && !r.streamStarted && r.hwPtr == s.hwPtr
    ensures cmd == TRIGGER_PAUSE_PUSH ==> r == s.(running := false)
    ensures cmd == TRIGGER_PAUSE_RELEASE ==> r == s.(running := true)
    ensures cmd !in {TRIGGER_START, TRIGGER_STOP, TRIGGER_PAUSE_PUSH, TRIGGER_PAUSE_RELEASE} ==> r == s
  {
    if cmd == TRIGGER_START then s.(running := started, streamStarted := started, hwPtr := 0)
    else if cmd == TRIGGER_STOP then s.(running := false, streamStarted := false)
    else if cmd == TRIGGER_PAUSE_PUSH then s.(running := false)
    else if cmd == TRIGGER_PAUSE_RELEASE then s.(running := true)
    else s
  }

  /** Which commands pass katana_enter_operation (src/pcm.c:490-511). */
  predicate Gated(cmd: int)
  {
    cmd != TRIGGER_STOP
  }

  /** The error a command returns once it is past the gate and the record checks. */
  function TriggerError(cmd: int, submitErr: seq<int>): (err: int)
    ensures cmd == TRIGGER_START ==> (err == 0 <==> FirstFailure(submitErr) == |submitErr|)
    ensures cmd == TRIGGER_START && err != 0 ==> err == submitErr[FirstFailure(submitErr)] && err < 0
    ensures cmd != TRIGGER_START ==>
              (err == 0 <==> cmd in {TRIGGER_STOP, TRIGGER_PAUSE_PUSH, TRIGGER_PAUSE_RELEASE})
    ensures cmd != TRIGGER_START && err != 0 ==> err == -EINVAL
  {
    if cmd == TRIGGER_START then
      var k := FirstFailure(submitErr);
      if k == |submitErr| then 0 else submitErr[k]
    else if cmd in {TRIGGER_STOP, TRIGGER_PAUSE_PUSH, TRIGGER_PAUSE_RELEASE} then 0
    else -EINVAL
  }

  function StreamFrameBytes(s: StreamState): nat
  {
    FrameBytes(s.channels, s.physicalWidth)
  }

  /** The bookkeeping half of katana_urb_complete (src/pcm.c:713-736): a
      completion counts only while the stream is started, and only a status of
      0 moves hw_ptr, by the whole frames the device took. */
  function CompleteState(s: StreamState, status: int, actualLength: nat): (r: StreamState)
    requires StreamFrameBytes(s) > 0
    ensures !s.streamStarted || status != 0 ==> r == s
    ensures r == s.(hwPtr := r.hwPtr)
    ensures s.streamStarted && status == 0 ==>
              r.hwPtr == AdvanceCursor(s.hwPtr, actualLength / StreamFrameBytes(s), s.bufferSize)
  {
    if !s.streamStarted then s
    else if status == 0 then
      s.(hwPtr := AdvanceCursor(s.hwPtr, actualLength / StreamFrameBytes(s), s.bufferSize))
    else s
  }

  /** Whether the completion refills and resubmits its slot (src/pcm.c:739). */
  predicate Refills(s: StreamState, status: int)
  {
    s.streamStarted && status == 0 && s.running
  }

  /** Whether the completion reports an elapsed period (src/pcm.c:779). */
  predicate PeriodElapsed(s: StreamState, status: int)
  {
    s.streamStarted && status == 0
  }

  /** A completion with a cancel or error status neither moves hw_ptr nor
      resubmits the slot nor reports a period. */
  lemma FailedCompletionIsInert(s: StreamState, status: int, actualLength: nat)
    requires StreamFrameBytes(s) > 0
    requires status == -ENOENT || status == -ECONNRESET || status == -ESHUTDOWN || status < 0
    ensures CompleteState(s, status, actualLength) == s
    ensures !Refills(s, status) && !PeriodElapsed(s, status)
  {
  }

  /** hw_ptr after a run of successful completions with the given lengths. */
  function CompleteRun(s: StreamState, lengths: seq<nat>): (r: StreamState)
    requires StreamFrameBytes(s) > 0
    ensures r == s.(hwPtr := r.hwPtr)
    decreases |lengths|
  {
    if lengths == [] then s
    else CompleteRun(CompleteState(s, 0, lengths[0]), lengths[1..])
  }

  /** hw_ptr stays inside the ring across any run of completions, each of at
      most one buffer of frames, and each step is a reduction modulo
      buffer_size. */
  lemma {:induction false} CompletionsKeepHwPtrInRing(s: StreamState, lengths: seq<nat>)
    requires StreamFrameBytes(s) > 0 && s.hwPtr < s.bufferSize && 2 * s.bufferSize <= U32_MODULUS
    requires forall i :: 0 <= i < |lengths| ==> lengths[i] / StreamFrameBytes(s) <= s.bufferSize
    ensures CompleteRun(s, lengths).hwPtr < s.bufferSize
    decreases |lengths|
  {
    if lengths != [] {
      CompletionStaysInRing(s, lengths[0]);
      var t := CompleteState(s, 0, lengths[0]);
      assert StreamFrameBytes(t) == StreamFrameBytes(s);
      var rest := lengths[1..];
      assert forall i :: 0 <= i < |rest| ==> rest[i] == lengths[i + 1];
      CompletionsKeepHwPtrInRing(t, rest);
    }
  }

  /** One completion of at most one buffer of frames keeps hw_ptr in the ring. */
  lemma CompletionStaysInRing(s: StreamState, actualLength: nat)
    requires StreamFrameBytes(s) > 0 && s.hwPtr < s.bufferSize && 2 * s.bufferSize <= U32_MODULUS
    requires actualLength / StreamFrameBytes(s) <= s.bufferSize
    ensures CompleteState(s, 0, actualLength).hwPtr < s.bufferSize
  {
    if s.streamStarted {
      AdvanceCursorStaysInBuffer(s.hwPtr, actualLength / StreamFrameBytes(s), s.bufferSize);
    }
  }

  /** A single successful completion moves hw_ptr to
      (hw_ptr + actual_length / frame_size) mod buffer_size. */
  lemma CompletionAdvancesModulo(s: StreamState, actualLength: nat)
    requires StreamFrameBytes(s) > 0 && s.streamStarted
    requires s.hwPtr < s.bufferSize && actualLength / StreamFrameBytes(s) <= s.bufferSize
    requires 2 * s.bufferSize <= U32_MODULUS
    ensures CompleteState(s, 0, actualLength).hwPtr
            == (s.hwPtr + actualLength / StreamFrameBytes(s)) % s.bufferSize
  {
    AdvanceCursorStaysInBuffer(s.hwPtr, actualLength / StreamFrameBytes(s), s.bufferSize);
  }

  lemma WholeFrames(bytes: nat, frameBytes: nat)
    requires frameBytes > 0
    ensures (bytes / frameBytes) * frameBytes <= bytes < (bytes / frameBytes) * frameBytes + frameBytes
  {
    assert bytes == (bytes / frameBytes) * frameBytes + bytes % frameBytes;
  }

  /** `copy_size` of the refill: the whole frames of one slot (src/pcm.c:740-742). */
  function CopySize(urbBufferSize: nat, frameBytes: nat): (size: nat)
    requires frameBytes > 0
    ensures size <= urbBufferSize && urbBufferSize - size < frameBytes
  {
    WholeFrames(urbBufferSize, frameBytes);
    (urbBufferSize / frameBytes) * frameBytes
  }

  /** `copy_offset` of the refill (src/pcm.c:748): the byte of the ring that
      hw_ptr designates, with the 32-bit product. */
  function CopyOffset(hwPtr: nat, frameBytes: nat, dmaBytes: nat): (off: nat)
    requires dmaBytes > 0
    ensures off < dmaBytes
  {
    U32(hwPtr * frameBytes) % dmaBytes
  }

  /** The offset and size katana_pcm_copy computes (src/pcm.c:666-667): its
      argument taken as frames and scaled to bytes, in an unsigned int. */
  function ByteOffset(frames: nat, channels: nat, physicalWidth: nat): (r: nat)
    ensures r < U32_MODULUS
    ensures frames * channels * physicalWidth / 8 < U32_MODULUS ==> r == frames * channels * physicalWidth / 8
  {
    U32(frames * channels * physicalWidth / 8)
  }

  /** The iov_iter `copy` callback receives its position and length in bytes,
      and the core only promises pos + count <= dma_bytes. The code scales
      both by the frame size once more and compares the byte sum with the
      frame count buffer_size: for stereo S16 (4 bytes a frame) in a ring of
      2048 frames, a request for bytes 4096 to 5119 writes from byte 16384 of
      an 8192-byte ring and leaves appl_ptr at 3072, outside the ring. */
  lemma CopyOverrunAsWritten()
    ensures 4096 + 1024 <= 2048 * FrameBytes(2, 16)
    ensures ByteOffset(4096, 2, 16) + ByteOffset(1024, 2, 16) > 2048 * FrameBytes(2, 16)
    ensures AdvanceCursor(4096, 1024, 2048) == 3072 >= 2048
  {
  }

  /** appl_ptr after a copy of the bytes `pos` to `pos + count`. */
  function CopiedApplPtr(s: StreamState, pos: nat, count: nat): nat
    requires StreamFrameBytes(s) > 0
  {
    AdvanceCursor(pos / StreamFrameBytes(s), count / StreamFrameBytes(s), s.bufferSize)
  }

  /** The intended cursor update of katana_pcm_copy: a byte range inside the
      ring, converted to frames, leaves appl_ptr inside the ring, one step
      modulo buffer_size further on. */
  lemma CopyKeepsApplPtrInRing(s: StreamState, pos: nat, count: nat)
    requires StreamFrameBytes(s) > 0 && 2 * s.bufferSize <= U32_MODULUS
    requires pos + count <= s.bufferSize * StreamFrameBytes(s)
    ensures s.bufferSize > 0 ==> CopiedApplPtr(s, pos, count) < s.bufferSize
    ensures s.bufferSize > 0 ==>
              CopiedApplPtr(s, pos, count)
              == (pos / StreamFrameBytes(s) + count / StreamFrameBytes(s)) % s.bufferSize
  {
    var fb := StreamFrameBytes(s);
    FramesOfByteRange(pos, count, fb, s.bufferSize);
    if s.bufferSize > 0 {
      AdvanceCursorIsModular(pos / fb, count / fb, s.bufferSize);
    }
  }

  /** A byte range inside a ring of `n` frames holds at most `n` whole frames. */
  lemma FramesOfByteRange(pos: nat, count: nat, fb: nat, n: nat)
    requires fb > 0 && pos + count <= n * fb
    ensures pos / fb + count / fb <= n
  {
    var a, b := pos / fb, count / fb;
    WholeFrames(pos, fb);
    WholeFrames(count, fb);
    assert (a + b) * fb == a * fb + b * fb;
  }

  /** The record once hw_params has provisioned the slot pool
      (src/pcm.c:338-343 and 385-389). */
  function ProvisionedState(s: StreamState, p: HwParams): (r: StreamState)
    ensures r.numUrbs == NUM_URBS && r.urbBufferSize == p.periodBytes && !r.streamStarted
    ensures r.bufferSize == p.bufferSize && r.hwPtr == s.hwPtr && r.applPtr == s.applPtr
  {
    StoreParams(s, p).(numUrbs := NUM_URBS, urbBufferSize := p.periodBytes, streamStarted := false)
  }

  /** A non-empty buffer of period bytes times periods holds at least one period. */
  lemma ProductBound(periodBytes: nat, periods: nat)
    requires 0 < periodBytes * periods
    ensures 0 < periodBytes <= periodBytes * periods
  {
    MulMonotone(periodBytes, periodBytes, 1, periods);
  }

  /** `memset(buf[row], 0, urb_buffer_size)`: a whole slot buffer of silence. */
  method ZeroRow(buf: array2<byte>, row: nat)
    requires row < buf.Length0
    modifies buf
    ensures forall j :: 0 <= j < buf.Length1 ==> buf[row, j] == 0
    ensures forall i, j :: 0 <= i < buf.Length0 && 0 <= j < buf.Length1 && i != row ==> buf[i, j] == old(buf[i, j])
  {
    var j := 0;
    while j < buf.Length1
      invariant j <= buf.Length1
      invariant forall k :: 0 <= k < j ==> buf[row, k] == 0
      invariant forall i, k :: 0 <= i < buf.Length0 && 0 <= k < buf.Length1 && i != row ==> buf[i, k] == old(buf[i, k])
    {
      buf[row, j] := 0;
      j := j + 1;
    }
  }

  /** `memcpy(buf[row] + dst, ring + src, len)`. */
  method CopyToRow(buf: array2<byte>, ring: array<byte>, row: nat, dst: nat, src: nat, len: nat)
    requires row < buf.Length0 && dst + len <= buf.Length1 && src + len <= ring.Length
    modifies buf
    ensures forall j :: dst <= j < dst + len ==> buf[row, j] == ring[src + (j - dst)]
    ensures forall i, j ::
              0 <= i < buf.Length0 && 0 <= j < buf.Length1 && (i != row || j < dst || j >= dst + len) ==>
                buf[i, j] == old(buf[i, j])
  {
    var k := 0;
    while k < len
      invariant k <= len
      invariant forall j :: dst <= j < dst + k ==> buf[row, j] == ring[src + (j - dst)]
      invariant forall i, j ::
                  0 <= i < buf.Length0 && 0 <= j < buf.Length1 && (i != row || j < dst || j >= dst + k) ==>
                    buf[i, j] == old(buf[i, j])
    {
      buf[row, dst + k] := ring[src + k];
      k := k + 1;
    }
  }

  /** usb_kill_urb on slots `count - 1` down to 0: an in-flight URB is
      cancelled, an idle one is left as it is. */
  method CancelSlots(pool: array<Urb>, count: nat)
    requires count <= pool.Length
    requires forall i :: 0 <= i < count ==> pool[i] == Idle || pool[i] == InFlight
    modifies pool
    ensures forall i :: 0 <= i < count ==> pool[i] == Idle
    ensures forall i :: count <= i < pool.Length ==> pool[i] == old(pool[i])
  {
    var j := count;
    while j > 0
      invariant 0 <= j <= count
      invariant forall m :: 0 <= m < j ==> pool[m] == old(pool[m])
      invariant forall m :: j <= m < count ==> pool[m] == Idle
      invariant forall m :: count <= m < pool.Length ==> pool[m] == old(pool[m])
    {
      j := j - 1;
      pool[j] := Idle;
    }
  }

  /** usb_free_coherent and usb_free_urb on slots `count - 1` down to 0. */
  method ReleaseSlots(pool: array<Urb>, count: nat)
    requires count <= pool.Length
    modifies pool
    ensures forall i :: 0 <= i < count ==> pool[i] == Released
    ensures forall i :: count <= i < pool.Length ==> pool[i] == old(pool[i])
  {
    var j := count;
    while j > 0
      invariant 0 <= j <= count
      invariant forall m :: j <= m < count ==> pool[m] == Released
      invariant forall m :: count <= m < pool.Length ==> pool[m] == old(pool[m])
    {
      j := j - 1;
      pool[j] := Released;
    }
  }

  /** The submission loop of START (src/pcm.c:536-555): each slot is silenced
      and submitted in turn until a submission fails. Returns the failing slot,
      or the number of slots when none fails. */
  method SubmitSlots(pool: array<Urb>, buf: array2<byte>, submitErr: seq<int>) returns (k: nat)
    requires pool.Length == buf.Length0 == |submitErr|
    modifies pool, buf
    ensures k == FirstFailure(submitErr)
    ensures forall i :: 0 <= i < k ==> pool[i] == InFlight
    ensures forall i :: k <= i < pool.Length ==> pool[i] == old(pool[i])
    ensures forall i, j :: 0 <= i < buf.Length0 && i <= k && 0 <= j < buf.Length1 ==> buf[i, j] == 0
    ensures forall i, j :: 0 <= i < buf.Length0 && i > k && 0 <= j < buf.Length1 ==> buf[i, j] == old(buf[i, j])
  {
    k := 0;
    while k < pool.Length
      invariant k <= pool.Length
      invariant forall j :: 0 <= j < k ==> submitErr[j] >= 0 && pool[j] == InFlight
      invariant forall j :: k <= j < pool.Length ==> pool[j] == old(pool[j])
      invariant forall r, c :: 0 <= r < k && 0 <= c < buf.Length1 ==> buf[r, c] == 0
      invariant forall r, c :: k <= r < buf.Length0 && 0 <= c < buf.Length1 ==> buf[r, c] == old(buf[r, c])
    {
      ZeroRow(buf, k);
      if submitErr[k] < 0 {
        assert FirstFailure(submitErr) == k;
        return;
      }
      pool[k] := InFlight;
      k := k + 1;
    }
  }

  /** The per-slot loop of katana_alloc_urb_buffers (src/pcm.c:810-837):
      slot by slot a URB, then its coherent buffer. Returns how many slots
      were completed and whether an allocation failed; a slot whose buffer
      failed has its URB freed again. */
  method AllocSlots(pool: array<Urb>, fault: AllocFault) returns (count: nat, failed: bool)
    requires fault == NoFault || fault.UrbFails? || fault.BufferFails?
    requires forall i :: 0 <= i < pool.Length ==> pool[i] == Unallocated
    modifies pool
    ensures count <= pool.Length
    ensures failed <==> Hits(fault, pool.Length)
    ensures !failed ==> count == pool.Length
    ensures failed ==> fault == UrbFails(count) || fault == BufferFails(count)
    ensures forall i :: 0 <= i < count ==> pool[i] == Idle
    ensures failed ==> pool[count] == (if fault.BufferFails? then Released else Unallocated)
    ensures forall i :: count < i < pool.Length ==> pool[i] == Unallocated
  {
    count := 0;
    while count < pool.Length
      invariant count <= pool.Length
      invariant forall j :: 0 <= j < count ==> pool[j] == Idle
      invariant forall j :: count <= j < pool.Length ==> pool[j] == Unallocated
      invariant !(fault.UrbFails? && fault.slot < count) && !(fault.BufferFails? && fault.slot < count)
    {
      if fault == UrbFails(count) {
        return count, true;
      }
      pool[count] := Idle;
      if fault == BufferFails(count) {
        pool[count] := Released;
        return count, true;
      }
      count := count + 1;
    }
    failed := false;
  }

  class PcmStream {
    /** The scalar fields of `katana_pcm_data`. */
    var st: StreamState
    /** data->urbs: the URB of each slot. */
    var urbs: array?<Urb>
    /** data->urb_buffers: one row per slot, the coherent transfer buffers. */
    var urbBuffers: array2?<byte>
    /** Live kernel allocations held by the slot pool: the three kzalloc'd
        arrays plus one URB and one coherent buffer per slot. */
    ghost var poolAllocations: nat
    /** runtime->dma_area; its length is runtime->dma_bytes. */
    var dmaArea: array?<byte>

    /** Whether a gated operation gets past katana_enter_operation and the
        record checks that follow it. */
    predicate Admits(g: GateState)
      reads this
    {
      !g.disconnecting && st.attached && st.usbDevValid
    }

    /** The pool is either absent (no pointer, no allocation) or complete:
        every slot holds a URB and a buffer of urb_buffer_size bytes. */
    ghost predicate Valid()
      reads this, urbs
    {
      (urbs == null <==> urbBuffers == null) &&
      (urbs == null ==> poolAllocations == 0) &&
      (urbs != null ==>
         urbs.Length == st.numUrbs && urbBuffers.Length0 == st.numUrbs &&
         urbBuffers.Length1 == st.urbBufferSize &&
         poolAllocations == 3 + 2 * st.numUrbs &&
         forall i :: 0 <= i < urbs.Length ==> urbs[i] == Idle || urbs[i] == InFlight)
    }

    /** The record katana_pcm_playback_open attaches to the runtime. */
    constructor ()
      ensures Valid() && st == OpenedState()
      ensures urbs == null && dmaArea == null
    {
      st := OpenedState();
      urbs, urbBuffers := null, null;
      poolAllocations := 0;
      dmaArea := null;
    }

    /** katana_free_urb_buffers (src/pcm.c:860-892): nothing to do without a
        pool; otherwise cancel every URB, free every URB and buffer, and clear
        the pointers. */
    method FreeUrbBuffers()
      requires Valid()
      modifies this, urbs
      ensures Valid()
      ensures urbs == null && urbBuffers == null && poolAllocations == 0
      ensures old(urbs) != null ==> forall i :: 0 <= i < old(urbs).Length ==> old(urbs)[i] == Released
      ensures st == old(st) && dmaArea == old(dmaArea)
    {
      if urbs == null {
        return;
      }
      CancelSlots(urbs, st.numUrbs);
      ReleaseSlots(urbs, st.numUrbs);
      urbs, urbBuffers := null, null;
      poolAllocations := 0;
    }

    /** katana_alloc_urb_buffers (src/pcm.c:785-857), starting from the empty
        pool hw_params leaves. A failure gives back every allocation made so
        far and returns -ENOMEM; unlike the source, it also clears the three
        pointers, so a later free does not touch released memory. `pool` is
        the URB array the call allocated, if any: after a failure no slot of
        it still holds a URB. */
    method AllocUrbBuffers(fault: AllocFault) returns (err: int, ghost pool: array?<Urb>)
      requires urbs == null && urbBuffers == null && poolAllocations == 0
      modifies this
      ensures Valid()
      ensures st == old(st) && dmaArea == old(dmaArea)
      ensures Hits(fault, st.numUrbs) ==> err == -ENOMEM && urbs == null && poolAllocations == 0
      ensures Hits(fault, st.numUrbs) ==>
                (pool == null <==> fault == UrbArrayFails) &&
                (pool != null ==>
                   pool.Length == st.numUrbs &&
                   forall i :: 0 <= i < pool.Length ==> pool[i] == Released || pool[i] == Unallocated)
      ensures !Hits(fault, st.numUrbs) ==> pool == urbs
      ensures !Hits(fault, st.numUrbs) ==>
                err == 0 && urbs != null && fresh(urbs) && fresh(urbBuffers) &&
                poolAllocations == 3 + 2 * st.numUrbs &&
                forall i :: 0 <= i < urbs.Length ==> urbs[i] == Idle
    {
      pool := null;
      if fault == UrbArrayFails {
        return -ENOMEM, pool;
      }
      urbs := new Urb[st.numUrbs](_ => Unallocated);
      pool := urbs;
      poolAllocations := 1;
      if fault == BufferArrayFails {
        poolAllocations := 0;
        urbs := null;
        return -ENOMEM, pool;
      }
      urbBuffers := new byte[st.numUrbs, st.urbBufferSize];
      poolAllocations := 2;
      if fault == DmaArrayFails {
        poolAllocations := 0;
        urbs, urbBuffers := null, null;
        return -ENOMEM, pool;
      }
      var count, failed := AllocSlots(urbs, fault);
      poolAllocations := 3 + 2 * count;
      if !failed {
        return 0, pool;
      }
      // error_cleanup: the completed slots, last first, then the three arrays;
      // clearing the pointers is the correction
      ReleaseSlots(urbs, count);
      poolAllocations := 0;
      urbs, urbBuffers := null, null;
      err := -ENOMEM;
    }

    /** Steps 1 to 4 of katana_pcm_hw_params once the parameters are accepted
        (src/pcm.c:369-399): a fresh PCM buffer, the old pool freed, a new pool
        of NUM_URBS slots of one period each, and the PCM buffer freed again if
        the pool cannot be allocated. */
    method ProvisionBuffers(p: HwParams, fault: AllocFault) returns (err: int)
      requires Valid()
      modifies this, urbs
      ensures Valid()
      ensures st == old(st).(numUrbs := NUM_URBS, urbBufferSize := p.periodBytes, streamStarted := false)
      ensures old(urbs) != null ==> forall i :: 0 <= i < old(urbs).Length ==> old(urbs)[i] == Released
      ensures Hits(fault, NUM_URBS) ==> err == -ENOMEM && urbs == null && dmaArea == null
      ensures !Hits(fault, NUM_URBS) ==>
                err == 0 && urbs != null && fresh(urbs) &&
                (forall i :: 0 <= i < urbs.Length ==> urbs[i] == Idle) &&
                dmaArea != null && fresh(dmaArea) && dmaArea.Length == p.bufferBytes
    {
      dmaArea := new byte[p.bufferBytes];
      FreeUrbBuffers();
      st := st.(numUrbs := NUM_URBS, urbBufferSize := p.periodBytes, streamStarted := false);
      ghost var pool;
      err, pool := AllocUrbBuffers(fault);
      if err < 0 {
        // snd_pcm_lib_free_pages
        dmaArea := null;
      }
    }

    /** What katana_pcm_hw_params does once it is past the gate and the
        record checks: `oldPool` is the pool it started with. */
    twostate predicate HwParamsOutcome(oldPool: array?<Urb>, p: HwParams, mallocErr: int, fault: AllocFault, err: int)
      reads this, oldPool
    {
      var v := ValidateHwParams(p.bufferBytes, p.periodBytes, p.periods);
      (v != 0 ==>
         err == v && st == StoreParams(old(st), p) && urbs == oldPool && dmaArea == old(dmaArea)) &&
      (v == 0 && mallocErr < 0 ==>
         err == mallocErr && st == StoreParams(old(st), p) && urbs == oldPool && dmaArea == old(dmaArea)) &&
      (v == 0 && mallocErr >= 0 ==>
         st == ProvisionedState(old(st), p) &&
         (oldPool != null ==> forall i :: 0 <= i < oldPool.Length ==> oldPool[i] == Released) &&
         (Hits(fault, NUM_URBS) ==> err == -ENOMEM && urbs == null && dmaArea == null) &&
         (!Hits(fault, NUM_URBS) ==>
            err == 0 && urbs != null && fresh(urbs) && dmaArea != null && fresh(dmaArea) &&
            dmaArea.Length == p.bufferBytes))
    }

    /** The body of katana_pcm_hw_params between the record checks and the
        gate exit (src/pcm.c:338-399). */
    method ApplyHwParams(p: HwParams, mallocErr: int, fault: AllocFault) returns (err: int)
      requires Valid()
      modifies this, urbs
      ensures Valid()
      ensures HwParamsOutcome(old(urbs), p, mallocErr, fault, err)
      ensures err == 0 ==> urbs != null && forall i :: 0 <= i < urbs.Length ==> urbs[i] == Idle
      ensures err == 0 && p.periodBytes * p.periods < U32_MODULUS ==>
                dmaArea != null && 0 < st.urbBufferSize <= dmaArea.Length
    {
      st := StoreParams(st, p);
      err := ValidateHwParams(p.bufferBytes, p.periodBytes, p.periods);
      if err != 0 {
        return;
      }
      if mallocErr < 0 {
        return mallocErr;
      }
      err := ProvisionBuffers(p, fault);
      if err == 0 && p.periodBytes * p.periods < U32_MODULUS {
        ProductBound(p.periodBytes, p.periods);
      }
    }

    /** katana_pcm_hw_params (src/pcm.c:309-405). */
    method HwParams(gate: OperationGate, p: HwParams, mallocErr: int, fault: AllocFault) returns (err: int)
      requires Valid()
      modifies this, gate, urbs
      ensures Valid()
      ensures gate.State() == old(gate.State())
      ensures !old(Admits(gate.State())) ==>
                err == -ENODEV && st == old(st) && urbs == old(urbs) && dmaArea == old(dmaArea)
      ensures old(Admits(gate.State())) ==> HwParamsOutcome(old(urbs), p, mallocErr, fault, err)
      ensures err == 0 ==> urbs != null && forall i :: 0 <= i < urbs.Length ==> urbs[i] == Idle
      ensures err == 0 && p.periodBytes * p.periods < U32_MODULUS ==>
                dmaArea != null && 0 < st.urbBufferSize <= dmaArea.Length
    {
      err := gate.Enter();
      if err < 0 {
        return;
      }
      EnterExitRestores(old(gate.State()));
      if !st.attached || !st.usbDevValid {
        gate.Exit();
        return -ENODEV;
      }
      err := ApplyHwParams(p, mallocErr, fault);
      gate.Exit();
    }

    /** katana_pcm_hw_free (src/pcm.c:408-437): never gated, always 0. */
    method HwFree() returns (err: int)
      requires Valid()
      modifies this, urbs
      ensures Valid() && err == 0
      ensures old(st.attached) ==>
                st == old(st).(streamStarted := false) &&
                urbs == null && dmaArea == null && poolAllocations == 0 &&
                (old(urbs) != null ==> forall i :: 0 <= i < old(urbs).Length ==> old(urbs)[i] == Released)
      ensures !old(st.attached) ==> st == old(st) && urbs == old(urbs) && dmaArea == old(dmaArea)
    {
      if st.attached {
        st := st.(streamStarted := false);
        FreeUrbBuffers();
        dmaArea := null;
      }
      return 0;
    }

    /** katana_pcm_playback_close (src/pcm.c:286-306): never gated, always 0;
        the record is released and detached from the runtime. */
    method Close() returns (err: int)
      requires Valid()
      modifies this, urbs
      ensures Valid() && err == 0
      ensures old(st.attached) ==>
                st == old(st).(streamStarted := false, attached := false) &&
                urbs == null && poolAllocations == 0 &&
                (old(urbs) != null ==> forall i :: 0 <= i < old(urbs).Length ==> old(urbs)[i] == Released)
      ensures !old(st.attached) ==> st == old(st) && urbs == old(urbs)
      ensures dmaArea == old(dmaArea)
    {
      if st.attached {
        st := st.(streamStarted := false);
        FreeUrbBuffers();
        st := st.(attached := false);
      }
      return 0;
    }

    /** katana_pcm_prepare (src/pcm.c:440-479). */
    method Prepare(gate: OperationGate) returns (err: int)
      modifies this, gate
      ensures gate.State() == old(gate.State())
      ensures err == 0 <==> old(Admits(gate.State()))
      ensures err != 0 ==> err == -ENODEV && st == old(st)
      ensures err == 0 ==> st == PreparedState(old(st))
      ensures urbs == old(urbs) && urbBuffers == old(urbBuffers) && dmaArea == old(dmaArea)
      ensures poolAllocations == old(poolAllocations)
    {
      err := gate.Enter();
      if err < 0 {
        return;
      }
      EnterExitRestores(old(gate.State()));
      if !st.attached || !st.usbDevValid {
        gate.Exit();
        return -ENODEV;
      }
      st := PreparedState(st);
      gate.Exit();
    }

    /** The START branch (src/pcm.c:530-558): silence then submit each slot in
        turn; on the first failure cancel the slots already submitted, last
        first, and clear both flags. */
    method StartStreaming(submitErr: seq<int>) returns (err: int)
      requires Valid() && (urbs != null || st.numUrbs == 0) && |submitErr| == st.numUrbs
      modifies this, urbs, urbBuffers
      ensures Valid()
      ensures err == TriggerError(TRIGGER_START, submitErr)
      ensures st == TriggerState(old(st), TRIGGER_START, err == 0)
      ensures urbs == old(urbs) && urbBuffers == old(urbBuffers) && dmaArea == old(dmaArea)
      ensures poolAllocations == old(poolAllocations)
      ensures urbs != null ==>
                var k := FirstFailure(submitErr);
                (forall i :: 0 <= i < k ==> urbs[i] == (if err == 0 then InFlight else Idle)) &&
                (forall i :: k <= i < urbs.Length ==> urbs[i] == old(urbs[i])) &&
                (forall i, j :: 0 <= i < urbBuffers.Length0 && i <= k && 0 <= j < urbBuffers.Length1 ==>
                   urbBuffers[i, j] == 0)
    {
      st := st.(running := true, streamStarted := true, hwPtr := 0);
      if urbs == null {
        return 0;
      }
      var k := SubmitSlots(urbs, urbBuffers, submitErr);
      if k < st.numUrbs {
        CancelSlots(urbs, k);
        st := st.(running := false, streamStarted := false);
        return submitErr[k];
      }
      return 0;
    }

    /** The STOP branch (src/pcm.c:560-570): clear both flags and cancel
        every slot. */
    method StopStreaming()
      requires Valid() && (urbs != null || st.numUrbs == 0)
      modifies this, urbs
      ensures Valid()
      ensures st == TriggerState(old(st), TRIGGER_STOP, false)
      ensures urbs == old(urbs) && urbBuffers == old(urbBuffers) && dmaArea == old(dmaArea)
      ensures poolAllocations == old(poolAllocations)
      ensures urbs != null ==> forall i :: 0 <= i < urbs.Length ==> urbs[i] == Idle
    {
      st := st.(running := false, streamStarted := false);
      if urbs != null {
        CancelSlots(urbs, st.numUrbs);
      }
    }

    /** katana_pcm_trigger (src/pcm.c:482-591). `submitErr[i]` is what
        usb_submit_urb returns for slot i on a START. */
    method Trigger(gate: OperationGate, cmd: int, submitErr: seq<int>) returns (err: int)
      requires Valid() && (urbs != null || st.numUrbs == 0) && |submitErr| == st.numUrbs
      modifies this, gate, urbs, urbBuffers
      ensures Valid()
      ensures gate.State() == old(gate.State())
      ensures urbs == old(urbs) && urbBuffers == old(urbBuffers) && dmaArea == old(dmaArea)
      ensures poolAllocations == old(poolAllocations)
      // STOP is never refused by a disconnect; every other command is
      ensures Gated(cmd) && old(gate.State()).disconnecting ==> err == -ENODEV && st == old(st)
      ensures (!Gated(cmd) || !old(gate.State()).disconnecting) && (!old(st.attached) || !old(st.usbDevValid)) ==>
                err == -ENODEV && st == old(st)
      ensures (!Gated(cmd) || !old(gate.State()).disconnecting) && old(st.attached) && old(st.usbDevValid) ==>
                err == TriggerError(cmd, submitErr) && st == TriggerState(old(st), cmd, err == 0)
      ensures cmd == TRIGGER_STOP && old(st.attached) && old(st.usbDevValid) && urbs != null ==>
                forall i :: 0 <= i < urbs.Length ==> urbs[i] == Idle
      ensures cmd != TRIGGER_START && cmd != TRIGGER_STOP && urbs != null ==>
                forall i :: 0 <= i < urbs.Length ==> urbs[i] == old(urbs[i])
      ensures cmd == TRIGGER_START && old(Admits(gate.State())) && urbs != null ==>
                var k := FirstFailure(submitErr);
                (forall i :: 0 <= i < k ==> urbs[i] == (if err == 0 then InFlight else Idle)) &&
                (forall i :: k <= i < urbs.Length ==> urbs[i] == old(urbs[i])) &&
                (forall i, j :: 0 <= i < urbBuffers.Length0 && i <= k && 0 <= j < urbBuffers.Length1 ==>
                   urbBuffers[i, j] == 0)
    {
      var shouldBlock := Gated(cmd);
      if shouldBlock {
        err := gate.Enter();
        if err < 0 {
          return;
        }
        EnterExitRestores(old(gate.State()));
      }
      if !st.attached || !st.usbDevValid {
        if shouldBlock {
          gate.Exit();
        }
        return -ENODEV;
      }
      if cmd == TRIGGER_START {
        err := StartStreaming(submitErr);
      } else if cmd == TRIGGER_STOP {
        StopStreaming();
        err := 0;
      } else if cmd == TRIGGER_PAUSE_PUSH {
        st := st.(running := false);
        err := 0;
      } else if cmd == TRIGGER_PAUSE_RELEASE {
        st := st.(running := true);
        err := 0;
      } else {
        err := -EINVAL;
      }
      if shouldBlock {
        gate.Exit();
      }
    }

    /** katana_pcm_pointer (src/pcm.c:594-626); `framesPlayed` is the value
        of the unsigned int frame estimate derived from jiffies. */
    function Pointer(framesPlayed: nat): (pos: nat)
      reads this
      requires st.attached && st.usbDevValid && st.running ==> st.bufferSize > 0
      ensures !st.attached || !st.usbDevValid ==> pos == 0
      ensures st.attached && st.usbDevValid && !st.running ==> pos == st.hwPtr
      ensures st.attached && st.usbDevValid && st.running ==>
                pos < st.bufferSize && pos == framesPlayed % st.bufferSize
      ensures st.hwPtr < st.bufferSize ==> pos < st.bufferSize
    {
      if !st.attached || !st.usbDevValid then 0
      else if st.running then framesPlayed % st.bufferSize
      else st.hwPtr
    }

    /** The part of copy_from_iter that lands: `data` written at `offset`. */
    method WriteRing(offset: nat, data: seq<byte>)
      requires dmaArea != null && offset + |data| <= dmaArea.Length
      modifies dmaArea
      ensures forall k :: offset <= k < offset + |data| ==> dmaArea[k] == data[k - offset]
      ensures forall k :: 0 <= k < dmaArea.Length && !(offset <= k < offset + |data|) ==> dmaArea[k] == old(dmaArea[k])
    {
      var k := 0;
      while k < |data|
        invariant k <= |data|
        invariant forall m :: offset <= m < offset + k ==> dmaArea[m] == data[m - offset]
        invariant forall m :: 0 <= m < dmaArea.Length && !(offset <= m < offset + k) ==> dmaArea[m] == old(dmaArea[m])
      {
        dmaArea[offset + k] := data[k];
        k := k + 1;
      }
    }

    /** katana_pcm_copy (src/pcm.c:629-698) with `pos` and `count` read as
        the bytes the iov_iter callback is given: `count` bytes of `src`
        (what the iterator can deliver) land at byte `pos` of the ring, and
        appl_ptr moves by the frames they hold. The code scales both values
        by the frame size once more; CopyOverrunAsWritten shows where that
        writes. */
    method Copy(gate: OperationGate, pos: nat, count: nat, src: seq<byte>) returns (err: int)
      requires dmaArea != null ==> pos + count <= dmaArea.Length && StreamFrameBytes(st) > 0
      modifies this, gate, dmaArea
      ensures gate.State() == old(gate.State())
      ensures urbs == old(urbs) && urbBuffers == old(urbBuffers) && dmaArea == old(dmaArea)
      ensures poolAllocations == old(poolAllocations)
      ensures !old(Admits(gate.State())) ==> err == -ENODEV && (dmaArea != null ==> unchanged(dmaArea))
      ensures old(Admits(gate.State())) && dmaArea == null ==> err == -ENOMEM
      ensures err != 0 ==> st == old(st)
      ensures err == 0 ==> dmaArea != null
      ensures old(Admits(gate.State())) && dmaArea != null ==>
                (err == 0 <==> |src| >= count) && (err != 0 ==> err == -EFAULT)
      ensures err == 0 ==> StreamFrameBytes(old(st)) > 0 && st == old(st).(applPtr := CopiedApplPtr(old(st), pos, count))
      ensures old(Admits(gate.State())) && dmaArea != null ==>
                var written := if |src| < count then src else src[..count];
                (forall k :: 0 <= k < dmaArea.Length && pos <= k < pos + |written| ==> dmaArea[k] == written[k - pos]) &&
                (forall k :: 0 <= k < dmaArea.Length && !(pos <= k < pos + |written|) ==>
                   dmaArea[k] == old(dmaArea[k]))
    {
      err := gate.Enter();
      if err < 0 {
        return;
      }
      EnterExitRestores(old(gate.State()));
      if !st.attached || !st.usbDevValid {
        gate.Exit();
        return -ENODEV;
      }
      if dmaArea == null {
        gate.Exit();
        return -ENOMEM;
      }
      var written := if |src| < count then src else src[..count];
      WriteRing(pos, written);
      if |written| != count {
        gate.Exit();
        return -EFAULT;
      }
      st := st.(applPtr := CopiedApplPtr(st, pos, count));
      gate.Exit();
    }

    /** The refill of katana_urb_complete (src/pcm.c:741-766): the whole frames
        of one slot copied out of the ring at hw_ptr, in one segment or in two
        on wrap-around, or silence when there is no ring. */
    method RefillSlot(slot: nat)
      requires urbBuffers != null && slot < urbBuffers.Length0 && urbBuffers.Length1 == st.urbBufferSize
      requires StreamFrameBytes(st) > 0
      requires dmaArea != null ==> 0 < dmaArea.Length && st.urbBufferSize <= dmaArea.Length
      modifies urbBuffers
      ensures dmaArea != null ==>
                var fs := StreamFrameBytes(st);
                var off := CopyOffset(st.hwPtr, fs, dmaArea.Length);
                forall k :: 0 <= k < CopySize(st.urbBufferSize, fs) ==>
                  urbBuffers[slot, k] == dmaArea[(off + k) % dmaArea.Length]
      ensures dmaArea == null ==> forall k :: 0 <= k < st.urbBufferSize ==> urbBuffers[slot, k] == 0
      ensures forall i, j ::
                0 <= i < urbBuffers.Length0 && 0 <= j < urbBuffers.Length1 && i != slot ==>
                  urbBuffers[i, j] == old(urbBuffers[i, j])
    {
      var fs := StreamFrameBytes(st);
      var copySize := CopySize(st.urbBufferSize, fs);
      if dmaArea != null {
        var off := CopyOffset(st.hwPtr, fs, dmaArea.Length);
        var segments := WrapSegments(off, copySize, dmaArea.Length);
        CopyToRow(urbBuffers, dmaArea, slot, 0, segments.0.start, segments.0.len);
        CopyToRow(urbBuffers, dmaArea, slot, segments.0.len, segments.1.start, segments.1.len);
        forall k | 0 <= k < copySize
          ensures urbBuffers[slot, k] == dmaArea[(off + k) % dmaArea.Length]
        {
          assert SourceIndex(segments, k) == RingIndex(off + k, dmaArea.Length);
          RingIndexIsModular(off + k, dmaArea.Length);
        }
      } else {
        ZeroRow(urbBuffers, slot);
      }
    }

    /** katana_urb_complete (src/pcm.c:701-782) for the URB of `slot`: the
        bookkeeping of CompleteState, then, while the stream runs, a refill and
        a resubmission whose failure is only logged. Returns whether a period
        elapsed. */
    method Complete(slot: nat, status: int, actualLength: nat, resubmitErr: int) returns (periodElapsed: bool)
      requires Valid() && urbs != null && slot < urbs.Length && urbs[slot] == InFlight
      requires StreamFrameBytes(st) > 0
      requires dmaArea != null ==> 0 < dmaArea.Length && st.urbBufferSize <= dmaArea.Length
      modifies this, urbs, urbBuffers
      ensures Valid()
      ensures urbs == old(urbs) && urbBuffers == old(urbBuffers) && dmaArea == old(dmaArea)
      ensures poolAllocations == old(poolAllocations)
      ensures st == CompleteState(old(st), status, actualLength)
      ensures periodElapsed == PeriodElapsed(old(st), status)
      ensures urbs[slot] == (if Refills(old(st), status) && resubmitErr >= 0 then InFlight else Idle)
      ensures forall i :: 0 <= i < urbs.Length && i != slot ==> urbs[i] == old(urbs[i])
      ensures !Refills(old(st), status) ==> unchanged(urbBuffers)
      ensures forall i, j ::
                0 <= i < urbBuffers.Length0 && 0 <= j < urbBuffers.Length1 && i != slot ==>
                  urbBuffers[i, j] == old(urbBuffers[i, j])
      ensures Refills(old(st), status) && dmaArea != null ==>
                var fs := StreamFrameBytes(st);
                var off := CopyOffset(st.hwPtr, fs, dmaArea.Length);
                forall k :: 0 <= k < CopySize(st.urbBufferSize, fs) ==>
                  urbBuffers[slot, k] == dmaArea[(off + k) % dmaArea.Length]
      ensures Refills(old(st), status) && dmaArea == null ==>
                forall k :: 0 <= k < st.urbBufferSize ==> urbBuffers[slot, k] == 0
    {
      // the URB is no longer in flight once its completion runs
      urbs[slot] := Idle;
      if !st.streamStarted {
        return false;
      }
      if status == 0 {
        st := st.(hwPtr := AdvanceCursor(st.hwPtr, actualLength / StreamFrameBytes(st), st.bufferSize));
      }
      if status == 0 && st.running {
        RefillSlot(slot);
        if resubmitErr >= 0 {
          urbs[slot] := InFlight;
        }
      }
      periodElapsed := status == 0;
    }
  }
}
