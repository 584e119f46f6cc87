/** The integer rules of src/pcm.c: the advertised hardware limits, the
    buffer-bytes refinement rule, the checks of hw_params, the ring cursors,
    the split of a wrapped copy into two segments, and the pointer state the
    slot allocator leaves behind when it fails. */
module PcmMath {
  import opened KernelTypes

  // katana_pcm_playback_hw (src/pcm.c:56-84)
  const RATE_MIN: nat := 8000
  const RATE_MAX: nat := 96000
  const CHANNELS: nat := 2
  const BUFFER_BYTES_MAX: nat := 32768
  const PERIOD_BYTES_MIN: nat := 1024
  const PERIOD_BYTES_MAX: nat := 4096
  const PERIODS_MIN: nat := 2
  const PERIODS_MAX: nat := 8

  /** The number of transfer slots hw_params provisions (src/pcm.c:386). */
  const NUM_URBS: nat := 8

  // SNDRV_PCM_TRIGGER_* (include/sound/pcm.h)
  const TRIGGER_STOP: int := 0
  const TRIGGER_START: int := 1
  const TRIGGER_PAUSE_PUSH: int := 3
  const TRIGGER_PAUSE_RELEASE: int := 4

  /** The bounds of an ALSA `snd_interval` (unsigned int). */
  datatype Interval = Interval(min: nat, max: nat)

  predicate InInterval(x: nat, i: Interval)
  {
    i.min <= x <= i.max
  }

  /** katana_buffer_constraint (src/pcm.c:106-124): the buffer-bytes interval
      after the rule, given the period-bytes and periods intervals. The two
      products are `unsigned int`. */
  function BufferConstraint(buffer: Interval, periodBytes: Interval, periods: Interval): (r: Interval)
    // the rule only narrows
    ensures buffer.min <= r.min && r.max <= buffer.max
    ensures r.min >= U32(periodBytes.min * periods.min)
    ensures r.max <= U32(periodBytes.max * periods.max)
    // and moves a bound only as far as the product
    ensures r.min == buffer.min || r.min == U32(periodBytes.min * periods.min)
    ensures r.max == buffer.max || r.max == U32(periodBytes.max * periods.max)
  {
    var minBuffer := U32(periodBytes.min * periods.min);
    var maxBuffer := U32(periodBytes.max * periods.max);
    Interval(if buffer.min < minBuffer then minBuffer else buffer.min,
             if buffer.max > maxBuffer then maxBuffer else buffer.max)
  }

  /** ALSA re-applies rules until nothing changes: this one changes nothing
      the second time. */
  lemma BufferConstraintIdempotent(buffer: Interval, periodBytes: Interval, periods: Interval)
    ensures var r := BufferConstraint(buffer, periodBytes, periods);
            BufferConstraint(r, periodBytes, periods) == r
  {
  }

  lemma MulMonotone(a: nat, b: nat, c: nat, d: nat)
    requires a <= b && c <= d
    ensures a * c <= b * d
  {
    assert a * c <= b * c by {
      assert b * c - a * c == (b - a) * c;
    }
    assert b * c <= b * d by {
      assert b * d - b * c == b * (d - c);
    }
  }

  /** The rule is sound: a buffer size that is some allowed period size times
      some allowed period count, and that the interval admitted before, is
      still admitted (when the products fit in 32 bits). */
  lemma {:induction false} BufferConstraintKeepsConsistentSizes(
    buffer: Interval, periodBytes: Interval, periods: Interval, pb: nat, n: nat)
    requires InInterval(pb, periodBytes) && InInterval(n, periods)
    requires InInterval(pb * n, buffer)
    requires periodBytes.max * periods.max < U32_MODULUS
    ensures InInterval(pb * n, BufferConstraint(buffer, periodBytes, periods))
  {
    MulMonotone(periodBytes.min, pb, periods.min, n);
    MulMonotone(pb, periodBytes.max, n, periods.max);
  }

  /** The checks of katana_pcm_hw_params (src/pcm.c:348-364): the buffer must
      be exactly the (32-bit) product of period bytes and periods, and within
      [period_bytes_min * periods_min, period_bytes_max * periods_max]. */
  function ValidateHwParams(bufferBytes: nat, periodBytes: nat, periods: nat): (err: int)
    ensures err == 0 || err == -EINVAL
    ensures bufferBytes != U32(periodBytes * periods) ==> err == -EINVAL
    ensures bufferBytes < PERIOD_BYTES_MIN * PERIODS_MIN ==> err == -EINVAL
    ensures bufferBytes > PERIOD_BYTES_MAX * PERIODS_MAX ==> err == -EINVAL
  {
    if bufferBytes != U32(periodBytes * periods) then -EINVAL
    else if bufferBytes < PERIOD_BYTES_MIN * PERIODS_MIN || bufferBytes > PERIOD_BYTES_MAX * PERIODS_MAX then -EINVAL
    else 0
  }

  /** When the product does not wrap, hw_params accepts exactly the buffers
      that are period bytes times periods and lie in [2048, 32768]. */
  lemma ValidateHwParamsExact(bufferBytes: nat, periodBytes: nat, periods: nat)
    requires periodBytes * periods < U32_MODULUS
    ensures ValidateHwParams(bufferBytes, periodBytes, periods) == 0 <==>
            bufferBytes == periodBytes * periods && 2048 <= bufferBytes <= 32768
  {
  }

  /** Every configuration the open-time constraints allow (period bytes in
      [1024, 4096], periods in [2, 8], buffer = their product) passes
      hw_params, and the buffer then never exceeds buffer_bytes_max. */
  lemma {:induction false} ConstrainedConfigurationsAccepted(periodBytes: nat, periods: nat)
    requires PERIOD_BYTES_MIN <= periodBytes <= PERIOD_BYTES_MAX
    requires PERIODS_MIN <= periods <= PERIODS_MAX
    ensures ValidateHwParams(periodBytes * periods, periodBytes, periods) == 0
    ensures periodBytes <= periodBytes * periods <= BUFFER_BYTES_MAX
  {
    MulMonotone(PERIOD_BYTES_MIN, periodBytes, PERIODS_MIN, periods);
    MulMonotone(periodBytes, PERIOD_BYTES_MAX, periods, PERIODS_MAX);
    MulMonotone(periodBytes, periodBytes, 1, periods);
  }

  /** 6144-byte periods are above period_bytes_max: hw_params refuses a
      6144 x 8 buffer of 49152 bytes. */
  lemma LargePeriodsRefused()
    ensures ValidateHwParams(49152, 6144, 8) == -EINVAL
  {
  }

  /** Bytes per frame, `channels * physical_width / 8` in unsigned int. */
  function FrameBytes(channels: nat, physicalWidth: nat): nat
  {
    U32(channels * physicalWidth) / 8
  }

  /** For a product that fits in 32 bits, the frame size is the whole bytes
      of the frame's bits. */
  lemma FrameBytesAreWholeBytes(channels: nat, physicalWidth: nat)
    requires channels * physicalWidth < U32_MODULUS
    ensures FrameBytes(channels, physicalWidth) * 8 <= channels * physicalWidth
    ensures channels * physicalWidth < FrameBytes(channels, physicalWidth) * 8 + 8
  {
  }

  /** `ptr = start + n; if (ptr >= size) ptr -= size;` on an unsigned int
      cursor: katana_urb_complete for hw_ptr (src/pcm.c:723-726) and
      katana_pcm_copy for appl_ptr (src/pcm.c:687-689). */
  function AdvanceCursor(start: nat, n: nat, size: nat): (r: nat)
    ensures r < U32_MODULUS
  {
    var sum := U32(start + n);
    if sum >= size then sum - size else sum
  }

  /** One conditional subtraction is a reduction modulo the buffer size as long
      as the sum is below twice the buffer size (and fits in 32 bits). */
  lemma AdvanceCursorIsModular(start: nat, n: nat, size: nat)
    requires start + n < 2 * size && start + n < U32_MODULUS
    ensures AdvanceCursor(start, n, size) == (start + n) % size
    ensures AdvanceCursor(start, n, size) < size
  {
    var sum := start + n;
    assert U32(sum) == sum;
    if sum >= size {
      ModAfterOneSubtraction(sum, size);
    }
  }

  lemma ModAfterOneSubtraction(x: nat, size: nat)
    requires size <= x < 2 * size
    ensures x % size == x - size
  {
    assert x == 1 * size + (x - size);
  }

  /** A cursor inside the buffer stays inside it when it advances by at most
      one buffer. */
  lemma AdvanceCursorStaysInBuffer(ptr: nat, n: nat, size: nat)
    requires ptr < size && n <= size && 2 * size <= U32_MODULUS
    ensures AdvanceCursor(ptr, n, size) < size
    ensures AdvanceCursor(ptr, n, size) == (ptr + n) % size
  {
    AdvanceCursorIsModular(ptr, n, size);
  }

  /** One memcpy: `len` bytes read from offset `start` of the PCM buffer. */
  datatype Segment = Segment(start: nat, len: nat)

  /** Where the `k`th byte of a two-segment copy is read from. */
  function SourceIndex(segments: (Segment, Segment), k: nat): nat
  {
    if k < segments.0.len then segments.0.start + k
    else segments.1.start + (k - segments.0.len)
  }

  /** The copy of katana_urb_complete (src/pcm.c:748-762): `size` bytes from
      offset `offset` of a ring of `ringBytes` bytes, as one segment or, on
      wrap-around, as a tail segment starting at `offset` and a head segment
      starting at 0. */
  function WrapSegments(offset: nat, size: nat, ringBytes: nat): (r: (Segment, Segment))
    requires offset < ringBytes && size <= ringBytes
    ensures r.0.len + r.1.len == size
    ensures r.0.start == offset && r.1.start == 0
    ensures r.0.start + r.0.len <= ringBytes && r.1.len <= r.0.start
    ensures offset + size <= ringBytes ==> r.1.len == 0
    ensures forall k :: 0 <= k < size ==> SourceIndex(r, k) == RingIndex(offset + k, ringBytes)
  {
    if offset + size <= ringBytes then
      (Segment(offset, size), Segment(0, 0))
    else
      var firstPart := ringBytes - offset;
      var secondPart := size - firstPart;
      (Segment(offset, firstPart), Segment(0, secondPart))
  }

  /** The ring position of byte `x` of a doubled ring: one subtraction. */
  function RingIndex(x: nat, n: nat): nat
  {
    if x < n then x else x - n
  }

  /** Below twice the ring size, the single subtraction is the reduction
      modulo the ring size. */
  lemma RingIndexIsModular(x: nat, n: nat)
    requires x < 2 * n
    ensures RingIndex(x, n) == x % n
  {
    if x < n {
      assert x == 0 * n + x;
    } else {
      ModAfterOneSubtraction(x, n);
    }
  }

  /** The slot whose usb_submit_urb fails first, or `|codes|` when all of them
      succeed; `codes[i]` is what the call for slot `i` returns. */
  function FirstFailure(codes: seq<int>): (k: nat)
    ensures k <= |codes|
    ensures forall j :: 0 <= j < k ==> codes[j] >= 0
    ensures k < |codes| ==> codes[k] < 0
  {
    if codes == [] then 0
    else if codes[0] < 0 then 0
    else 1 + FirstFailure(codes[1..])
  }

  /** Which allocation of katana_alloc_urb_buffers fails first: one of the
      three kzalloc'd arrays, or the URB or coherent buffer of a slot. */
  datatype AllocFault =
    | NoFault
    | UrbArrayFails
    | BufferArrayFails
    | DmaArrayFails
    | UrbFails(slot: nat)
    | BufferFails(slot: nat)

  /** Whether the fault happens when `n` slots are allocated. */
  predicate Hits(f: AllocFault, n: nat)
  {
    match f
    case NoFault => false
    case UrbFails(i) => i < n
    case BufferFails(i) => i < n
    case _ => true
  }

  /** What a kernel pointer field refers to. */
  datatype Ptr = Null | Live | Dangling

  /** The fields data->urbs, data->urb_buffers and data->urb_dma_addrs. */
  datatype PoolPointers = PoolPointers(urbs: Ptr, urbBuffers: Ptr, dmaAddrs: Ptr)

  /** The three fields after katana_alloc_urb_buffers returns, as the source
      is written (src/pcm.c:790-856), starting from the NULL fields that
      katana_free_urb_buffers leaves (hw_params frees first, line 383). Each
      failure path kfree's what it allocated but never resets a field. */
  function PointersAfterAllocAsWritten(f: AllocFault, n: nat): (p: PoolPointers)
    ensures !Hits(f, n) ==> p == PoolPointers(Live, Live, Live)
  {
    if !Hits(f, n) then PoolPointers(Live, Live, Live)
    else
      match f
      case UrbArrayFails => PoolPointers(Null, Null, Null)
      case BufferArrayFails => PoolPointers(Dangling, Null, Null)
      case DmaArrayFails => PoolPointers(Dangling, Dangling, Null)
      case _ => PoolPointers(Dangling, Dangling, Dangling)
  }

  /** katana_free_urb_buffers returns early only when data->urbs is NULL (line
      864); otherwise it reads and kfree's all three arrays, which is safe only
      when all three are live. */
  predicate FreeIsSafe(p: PoolPointers)
  {
    p.urbs == Null || p == PoolPointers(Live, Live, Live)
  }

  /** As written, every failure after the first kzalloc leaves data->urbs
      dangling, so the next katana_free_urb_buffers (from hw_free, from close,
      or from the next hw_params) reads and frees released memory. */
  lemma AllocFailureLeavesDanglingPool(f: AllocFault, n: nat)
    requires Hits(f, n)
    ensures FreeIsSafe(PointersAfterAllocAsWritten(f, n)) <==> f == UrbArrayFails
  {
  }

  /** The smallest instance: the second kzalloc fails. */
  lemma DanglingPoolExample()
    ensures PointersAfterAllocAsWritten(BufferArrayFails, NUM_URBS).urbs == Dangling
    ensures !FreeIsSafe(PointersAfterAllocAsWritten(BufferArrayFails, NUM_URBS))
  {
  }
}
