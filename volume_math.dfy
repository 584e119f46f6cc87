/** The value conversions of the mixer controls (src/control.c): percent and
    mixer steps to and from the raw 16-bit volume of the Feature Unit Volume
    Control, the inverted Mute Control byte and the two-byte little-endian
    layout of the volume value (section 5.2.2.4.3 and the control
    selectors of appendix A.10.2 of the USB Device Class Definition for
    Audio Devices 1.0). */
module VolumeMath {
  import opened KernelTypes

  // The range the driver starts with and falls back to (src/control.c:12-14).
  const DEFAULT_MIN: int := -20480
  const DEFAULT_MAX: int := 0
  const DEFAULT_RES: int := 1

  /** The three int16_t globals katana_vol_min, katana_vol_max, katana_vol_res. */
  datatype VolumeRange = VolumeRange(min: int, max: int, res: int)

  const DefaultRange: VolumeRange := VolumeRange(DEFAULT_MIN, DEFAULT_MAX, DEFAULT_RES)

  predicate WellFormed(r: VolumeRange)
  {
    IsInt16(r.min) && IsInt16(r.max) && IsInt16(r.res)
  }

  // ---------------------------------------------------------------------
  // Little-endian packing (src/control.c:125-126, 216-217, 48, 67, 86, 315)

  /** `v & 0xff` and `(v >> 8) & 0xff` on the promoted int: the two low
      bytes of the two's complement value (the shift is arithmetic). */
  function PackLE16(v: int): (bytes: seq<byte>)
    ensures |bytes| == 2
  {
    [(v % 256) as byte, ((v / 256) % 256) as byte]
  }

  /** `b0 | (b1 << 8)` stored into an int16_t. */
  function UnpackLE16(lo: byte, hi: byte): (v: int)
    ensures IsInt16(v)
  {
    Int16(lo as int + 256 * hi as int)
  }

  /** The two packed bytes are the value modulo 2^16. */
  lemma PackedBytesAreLowHalf(v: int)
    ensures var b := PackLE16(v); b[0] as int + 256 * b[1] as int == v % U16_MODULUS
  {
    var q := v / 256;
    var r := v % 256;
    assert v == 256 * q + r;
    var qq := q / 256;
    assert q == 256 * qq + q % 256;
    var low := r + 256 * (q % 256);
    assert low == v - U16_MODULUS * qq;
    assert 0 <= low < U16_MODULUS;
    ModOfShift(low, v, qq);
  }

  lemma ModOfShift(low: int, v: int, k: int)
    requires low == v - U16_MODULUS * k && 0 <= low < U16_MODULUS
    ensures low == v % U16_MODULUS
  {
    assert v == U16_MODULUS * (v / U16_MODULUS) + v % U16_MODULUS;
  }

  /** Unpacking what packing produced gives back the int16 value; for any
      int, the int16 it truncates to. */
  lemma {:induction false} PackUnpack(v: int)
    ensures var b := PackLE16(v); UnpackLE16(b[0], b[1]) == Int16(v)
    ensures IsInt16(v) ==> var b := PackLE16(v); UnpackLE16(b[0], b[1]) == v
  {
    var b := PackLE16(v);
    var x := b[0] as int + 256 * b[1] as int;
    PackedBytesAreLowHalf(v);
    assert x == v % U16_MODULUS;
    Int16OfResidue(v);
  }

  lemma Int16OfResidue(v: int)
    ensures Int16(v % U16_MODULUS) == Int16(v)
  {
    var k := v / U16_MODULUS;
    assert v == U16_MODULUS * k + v % U16_MODULUS;
    var a := v % U16_MODULUS + 0x8000;
    var b := v + 0x8000;
    assert b == a + U16_MODULUS * k;
    ShiftedMod(a, k);
  }

  lemma ShiftedMod(a: int, k: int)
    ensures (a + U16_MODULUS * k) % U16_MODULUS == a % U16_MODULUS
  {
    var m := a % U16_MODULUS;
    assert a == U16_MODULUS * (a / U16_MODULUS) + m;
    ModOfShift(m, a + U16_MODULUS * k, a / U16_MODULUS + k);
  }

  /** Packing an unpacked pair gives back the two bytes. */
  lemma {:induction false} UnpackPack(lo: byte, hi: byte)
    ensures PackLE16(UnpackLE16(lo, hi)) == [lo, hi]
  {
    var x := lo as int + 256 * hi as int;
    var v := UnpackLE16(lo, hi);
    assert (x - v) % U16_MODULUS == 0;
    var k := (x - v) / U16_MODULUS;
    assert v == x - U16_MODULUS * k;
    assert v == 256 * (hi as int - 256 * k) + lo as int;
    DivModOf(v, hi as int - 256 * k, lo as int);
    assert hi as int - 256 * k == 256 * (-k) + hi as int;
    DivModOf(hi as int - 256 * k, -k, hi as int);
  }

  lemma DivModOf(v: int, q: int, r: int)
    requires v == 256 * q + r && 0 <= r < 256
    ensures v / 256 == q && v % 256 == r
  {
    assert v == 256 * (v / 256) + v % 256;
  }

  // ---------------------------------------------------------------------
  // Mute byte (src/control.c:400, 468): the device reports 1 for sound on.

  /** The byte katana_set_hardware_mute sends for the ALSA switch value. */
  function MuteByte(mute: int): (b: byte)
    ensures b <= 1
  {
    if mute != 0 then 0 else 1
  }

  /** The ALSA switch value katana_get_hardware_mute returns for a byte. */
  function MuteFromByte(b: byte): (mute: int)
    ensures mute == 0 || mute == 1
  {
    if b != 0 then 0 else 1
  }

  /** Reading back what was sent gives the switch value, normalised to 0/1,
      and the byte sent is 0 exactly when the switch asks for mute. */
  lemma MuteRoundTrip(mute: int)
    ensures MuteFromByte(MuteByte(mute)) == (if mute != 0 then 1 else 0)
    ensures MuteByte(mute) == 0 <==> mute != 0
  {
  }

  /** Sending back a reported state gives the device its own byte,
      normalised to 0/1. */
  lemma MuteByteRoundTrip(b: byte)
    ensures MuteByte(MuteFromByte(b)) == (if b != 0 then 1 else 0)
    ensures MuteFromByte(b) == 1 <==> b == 0
  {
  }

  // ---------------------------------------------------------------------
  // Percent <-> raw (src/control.c:197-213, 370-377)

  /** volume_value of katana_set_hardware_volume: the ends of the range for
      0% and 100%, otherwise linear scaling, rounded to the nearest step of
      the resolution when it exceeds 1, stored into an int16_t. */
  function PercentToRaw(r: VolumeRange, percent: int): (v: int)
    requires WellFormed(r)
    ensures IsInt16(v)
    ensures percent <= 0 ==> v == r.min
    ensures 100 <= percent ==> v == r.max
  {
    if percent <= 0 then r.min
    else if percent >= 100 then r.max
    else
      var raw := r.min + CDiv(percent * (r.max - r.min), 100);
      if r.res > 1 then
        var steps := CDiv(raw - r.min + r.res / 2, r.res);
        Int16(r.min + steps * r.res)
      else
        Int16(raw)
  }

  lemma DivAtMost(a: int, b: int, q: int)
    requires b > 0 && a < (q + 1) * b
    ensures a / b <= q
  {
    var d := a / b;
    assert b * d <= a by {
      assert a == b * d + a % b;
    }
    assert b * (q + 1) - b * d == b * (q + 1 - d);
    PositiveFactor(b, q + 1 - d);
  }

  lemma PositiveFactor(b: int, t: int)
    requires b > 0 && b * t > 0
    ensures t > 0
  {
  }

  lemma DivAtLeast(a: int, b: int, q: int)
    requires b > 0 && q * b <= a
    ensures q <= a / b
  {
    var d := a / b;
    assert a < b * (d + 1) by {
      assert a == b * d + a % b;
    }
    assert b * (d + 1 - q) == b * (d + 1) - q * b;
    PositiveFactor(b, d + 1 - q);
  }

  /** The linear value for 0 < percent < 100 lies in [min, max), and on a
      range at least 100 wide it is strictly above min. */
  lemma LinearValueInRange(r: VolumeRange, percent: int)
    requires WellFormed(r) && r.min <= r.max && 0 < percent < 100
    ensures var x := CDiv(percent * (r.max - r.min), 100);
            0 <= x <= r.max - r.min &&
            (r.min < r.max ==> x < r.max - r.min) &&
            (100 <= r.max - r.min ==> 1 <= x) &&
            100 * x <= percent * (r.max - r.min) < 100 * x + 100
  {
    var d := r.max - r.min;
    var pd := percent * d;
    assert 100 * d - pd == (100 - percent) * d;
    assert pd - d == (percent - 1) * d;
    var x := pd / 100;
    assert pd == 100 * x + pd % 100;
    if r.min < r.max {
      DivAtMost(pd, 100, d - 1);
    }
    if 100 <= d {
      DivAtLeast(pd, 100, 1);
    }
  }

  /** Without quantisation the scaled volume stays inside the device range. */
  lemma PercentToRawInRange(r: VolumeRange, percent: int)
    requires WellFormed(r) && r.min <= r.max && r.res <= 1
    ensures r.min <= PercentToRaw(r, percent) <= r.max
  {
    if 0 < percent < 100 {
      LinearValueInRange(r, percent);
    }
  }

  /** With a resolution above 1 that divides the range, the rounded volume is
      a whole number of steps above min and does not leave the range. */
  lemma {:induction false} PercentToRawQuantised(r: VolumeRange, percent: int)
    requires WellFormed(r) && r.min <= r.max && r.res > 1 && (r.max - r.min) % r.res == 0
    requires 0 < percent < 100
    ensures r.min <= PercentToRaw(r, percent) <= r.max
    ensures (PercentToRaw(r, percent) - r.min) % r.res == 0
  {
    LinearValueInRange(r, percent);
    var d := r.max - r.min;
    var x := CDiv(percent * d, 100);
    var raw := r.min + x;
    assert CDiv(raw - r.min + r.res / 2, r.res) == (x + r.res / 2) / r.res;
    NearestStepInRange(x, d, r.res);
    var v := r.min + (x + r.res / 2) / r.res * r.res;
    assert IsInt16(v);
  }

  /** Whatever the resolution, the rounded volume is a whole number of steps
      above min as long as it does not wrap in int16; it then lies at most
      half a step above max. */
  lemma {:induction false} PercentToRawOnGrid(r: VolumeRange, percent: int)
    requires WellFormed(r) && r.min <= r.max && r.res > 1 && r.max + r.res / 2 < 0x8000
    requires 0 < percent < 100
    ensures r.min <= PercentToRaw(r, percent) <= r.max + r.res / 2
    ensures (PercentToRaw(r, percent) - r.min) % r.res == 0
  {
    LinearValueInRange(r, percent);
    var x := CDiv(percent * (r.max - r.min), 100);
    var raw := r.min + x;
    assert CDiv(raw - r.min + r.res / 2, r.res) == (x + r.res / 2) / r.res;
    NearestStepBounds(x, r.res);
    var v := r.min + (x + r.res / 2) / r.res * r.res;
    assert IsInt16(v);
  }

  /** Rounding a non-negative offset to the nearest multiple of `res` gives a
      multiple of `res` no more than half a step above it. */
  lemma NearestStepBounds(x: int, res: int)
    requires 0 <= x && res > 1
    ensures var s := (x + res / 2) / res; 0 <= s * res <= x + res / 2 && (s * res) % res == 0
  {
    var s := (x + res / 2) / res;
    DivAtLeast(x + res / 2, res, 0);
    assert x + res / 2 == res * s + (x + res / 2) % res;
    MulUnderBound(0, s, res);
    MultipleHasNoRemainder(s, res);
  }

  /** Rounding an offset in [0, d] to the nearest multiple of `res`, where
      `res` divides d, stays in [0, d] and is a multiple of `res`. */
  lemma NearestStepInRange(x: int, d: int, res: int)
    requires 0 <= x <= d && res > 1 && d % res == 0
    ensures var s := (x + res / 2) / res; 0 <= s * res <= d && (s * res) % res == 0
  {
    var s := (x + res / 2) / res;
    var m := d / res;
    assert d == res * m + d % res;
    assert (m + 1) * res == m * res + res;
    DivAtMost(x + res / 2, res, m);
    DivAtLeast(x + res / 2, res, 0);
    MulUnderBound(s, m, res);
    MultipleHasNoRemainder(s, res);
  }

  lemma MultipleHasNoRemainder(s: int, res: int)
    requires res > 0
    ensures (s * res) % res == 0
  {
    assert (s + 1) * res == s * res + res;
    DivAtMost(s * res, res, s);
    DivAtLeast(s * res, res, s);
    assert s * res == res * ((s * res) / res) + (s * res) % res;
  }

  /** Rounding to the nearest step can overshoot max when the resolution does
      not divide the range: 99% of [-10, 0] in steps of 6 gives 2. */
  lemma PercentToRawOvershoot()
    ensures PercentToRaw(VolumeRange(-10, 0, 6), 99) == 2
  {
  }

  /** volume_percent of katana_get_hardware_volume. */
  function RawToPercent(r: VolumeRange, v: int): (p: int)
    ensures 0 <= p <= 100
    ensures v <= r.min ==> p == 0
  {
    if v <= r.min then 0
    else if v >= r.max then 100
    else ((v - r.min) * 100) / (r.max - r.min)
  }

  /** The percentage is always in [0, 100]; at or below min it is 0, at or
      above max (and above min) it is 100, and strictly inside it is below 100. */
  lemma RawToPercentBounds(r: VolumeRange, v: int)
    ensures 0 <= RawToPercent(r, v) <= 100
    ensures v <= r.min ==> RawToPercent(r, v) == 0
    ensures r.min < v && r.max <= v ==> RawToPercent(r, v) == 100
    ensures r.min < v < r.max ==> RawToPercent(r, v) < 100
  {
    if r.min < v < r.max {
      var d := r.max - r.min;
      assert d * 100 - (v - r.min) * 100 == (r.max - v) * 100;
      DivAtMost((v - r.min) * 100, d, 99);
    }
  }

  /** Setting a percentage and reading it back loses at most one percent on a
      range at least 100 wide without quantisation, and the ends are exact. */
  lemma {:induction false} PercentRoundTrip(r: VolumeRange, percent: int)
    requires WellFormed(r) && r.res <= 1 && 100 <= r.max - r.min
    requires 0 <= percent <= 100
    ensures percent - 1 <= RawToPercent(r, PercentToRaw(r, percent)) <= percent
    ensures percent == 0 || percent == 100 ==> RawToPercent(r, PercentToRaw(r, percent)) == percent
  {
    if 0 < percent < 100 {
      LinearValueInRange(r, percent);
      var d := r.max - r.min;
      var x := CDiv(percent * d, 100);
      assert PercentToRaw(r, percent) == r.min + x;
      assert RawToPercent(r, r.min + x) == (x * 100) / d;
      assert (percent + 1) * d == percent * d + d;
      DivAtMost(x * 100, d, percent);
      assert (percent - 1) * d == percent * d - d;
      DivAtLeast(x * 100, d, percent - 1);
    }
  }

  // ---------------------------------------------------------------------
  // Mixer steps (src/control.c:501, 527-531, 565-568)

  /** The maximum katana_volume_info reports; its minimum is 0. */
  function InfoSteps(r: VolumeRange): (n: int)
    requires r.res != 0
    ensures r.res > 0 && r.min <= r.max ==> 0 <= n && n * r.res <= r.max - r.min
  {
    if r.res > 0 && r.min <= r.max then
      assert r.max - r.min == r.res * ((r.max - r.min) / r.res) + (r.max - r.min) % r.res;
      CDiv(r.max - r.min, r.res)
    else
      CDiv(r.max - r.min, r.res)
  }

  /** alsa_steps of katana_volume_get for a raw volume the device reported;
      a value below min is reported as 0. */
  function RawToSteps(r: VolumeRange, raw: int): (n: int)
    requires r.res != 0
    ensures raw < r.min ==> n == 0
    ensures r.res > 0 ==> n >= 0
  {
    if raw < r.min then 0 else CDiv(raw - r.min, r.res)
  }

  /** raw_volume of katana_volume_put: `min + steps * res` stored into an
      int16_t and then clamped to [min, max]. The truncation comes first
      (modular 32-bit arithmetic on the way only changes the value by
      multiples of 2^32, which the int16 result does not see). */
  function StepsToRaw(r: VolumeRange, steps: int): (v: int)
    requires WellFormed(r)
    ensures IsInt16(v)
    ensures r.min <= r.max ==> r.min <= v <= r.max
  {
    var raw := Int16(r.min + steps * r.res);
    var low := if raw < r.min then r.min else raw;
    if low > r.max then r.max else low
  }

  /** katana_volume_put narrows the control's long value to int before the
      conversion (src/control.c:524); that changes nothing, since the int16
      result sees the steps only modulo 2^16. */
  lemma StepsNarrowingInvisible(r: VolumeRange, steps: int)
    requires WellFormed(r)
    ensures StepsToRaw(r, Int32(steps)) == StepsToRaw(r, steps)
  {
    var n := Int32(steps);
    var t := MultipleOf(n - steps, U32_MODULUS);
    var j := U16_MODULUS * (t * r.res);
    ScaledShift(n, steps, r.res, t);
    assert Int16(r.min + n * r.res) == Int16(r.min + steps * r.res) by {
      assert r.min + n * r.res == r.min + steps * r.res + U16_MODULUS * j;
      Int16Periodic(r.min + steps * r.res, j);
    }
  }

  lemma MultipleOf(d: int, m: int) returns (t: int)
    requires m > 0 && d % m == 0
    ensures d == m * t
  {
    t := d / m;
  }

  lemma ScaledShift(n: int, steps: int, res: int, t: int)
    requires n - steps == U32_MODULUS * t
    ensures n * res == steps * res + U16_MODULUS * (U16_MODULUS * (t * res))
  {
    assert n * res == steps * res + (n - steps) * res;
  }

  lemma Int16Periodic(x: int, j: int)
    ensures Int16(x + U16_MODULUS * j) == Int16(x)
  {
    ShiftedMod(x + 0x8000, j);
  }

  /** A raw volume inside the range gives a step count between the info
      minimum 0 and the info maximum. */
  lemma StepsWithinInfo(r: VolumeRange, raw: int)
    requires r.res > 0 && r.min <= raw <= r.max
    ensures 0 <= RawToSteps(r, raw) <= InfoSteps(r)
  {
    var a := raw - r.min;
    var b := r.max - r.min;
    assert b == r.res * (b / r.res) + b % r.res;
    DivAtLeast(b, r.res, a / r.res) by {
      assert a == r.res * (a / r.res) + a % r.res;
    }
  }

  lemma MulUnderBound(s: int, n: int, res: int)
    requires 0 <= s <= n && 0 < res
    ensures 0 <= s * res <= n * res
  {
    assert n * res - s * res == (n - s) * res;
  }

  /** Putting a step count in [0, info maximum] and reading it back gives the
      same count. */
  lemma {:induction false} StepsRoundTrip(r: VolumeRange, steps: int)
    requires WellFormed(r) && r.res > 0 && r.min <= r.max
    requires 0 <= steps <= InfoSteps(r)
    ensures RawToSteps(r, StepsToRaw(r, steps)) == steps
  {
    MulUnderBound(steps, InfoSteps(r), r.res);
    var v := r.min + steps * r.res;
    assert r.min <= v <= r.max;
    assert Int16(v) == v;
    assert StepsToRaw(r, steps) == v;
    assert (steps + 1) * r.res == steps * r.res + r.res;
    DivAtMost(steps * r.res, r.res, steps);
    DivAtLeast(steps * r.res, r.res, steps);
  }

  /** Reading a raw volume that lies on the step grid and putting the count
      back gives the same raw volume. */
  lemma {:induction false} RawRoundTrip(r: VolumeRange, raw: int)
    requires WellFormed(r) && r.res > 0 && r.min <= raw <= r.max && (raw - r.min) % r.res == 0
    ensures StepsToRaw(r, RawToSteps(r, raw)) == raw
  {
    var a := raw - r.min;
    assert a == r.res * (a / r.res);
    assert r.min + (a / r.res) * r.res == raw;
    assert Int16(raw) == raw;
  }

  /** Because the int16 truncation comes before the clamp, a count far past
      the info maximum wraps below min and is clamped to min, not to max. */
  lemma OversizedStepsWrapToMinimum()
    ensures StepsToRaw(DefaultRange, 60000) == DefaultRange.min
    ensures 60000 > InfoSteps(DefaultRange)
  {
  }

  // ---------------------------------------------------------------------
  // Range query (src/control.c:23-101)

  /** What one GET request puts in the coherent buffer: nothing on an error,
      otherwise the bytes received. */
  datatype Reply = Failed | Received(bytes: seq<byte>)

  predicate Holds(reply: Reply, n: nat)
  {
    reply.Received? ==> |reply.bytes| == n
  }

  /** The int16 a two-byte reply decodes to, or the fallback. */
  function ReplyValue(reply: Reply, fallback: int): (v: int)
    requires Holds(reply, 2) && IsInt16(fallback)
    ensures IsInt16(v)
    ensures reply.Received? ==> v == UnpackLE16(reply.bytes[0], reply.bytes[1])
    ensures reply.Failed? ==> v == fallback
  {
    match reply
    case Failed => fallback
    case Received(b) => UnpackLE16(b[0], b[1])
  }

  /** The range katana_get_volume_range installs, as written: any reply is
      taken, including a resolution of 0 or below. */
  function RangeFromRepliesAsWritten(minReply: Reply, maxReply: Reply, resReply: Reply): (r: VolumeRange)
    requires Holds(minReply, 2) && Holds(maxReply, 2) && Holds(resReply, 2)
    ensures WellFormed(r)
  {
    VolumeRange(ReplyValue(minReply, DEFAULT_MIN), ReplyValue(maxReply, DEFAULT_MAX),
                ReplyValue(resReply, DEFAULT_RES))
  }

  /** A device that answers GET_RES with 0 leaves a zero resolution, by which
      katana_volume_get and katana_volume_info then divide. */
  lemma ZeroResolutionAccepted()
    ensures RangeFromRepliesAsWritten(Failed, Failed, Received([0, 0])).res == 0
  {
  }

  /** The corrected range query: a resolution that is not positive is
      treated like a failed GET_RES and replaced by the fallback 1. */
  function RangeFromReplies(minReply: Reply, maxReply: Reply, resReply: Reply): (r: VolumeRange)
    requires Holds(minReply, 2) && Holds(maxReply, 2) && Holds(resReply, 2)
    ensures WellFormed(r) && r.res >= 1
  {
    var asWritten := RangeFromRepliesAsWritten(minReply, maxReply, resReply);
    if asWritten.res <= 0 then asWritten.(res := DEFAULT_RES) else asWritten
  }

  /** Each failed query falls back on its own default, each answered query
      is decoded, and only a non-positive resolution differs from the code as
      written. */
  lemma RangeFallbacks(minReply: Reply, maxReply: Reply, resReply: Reply)
    requires Holds(minReply, 2) && Holds(maxReply, 2) && Holds(resReply, 2)
    ensures var r := RangeFromReplies(minReply, maxReply, resReply);
            (minReply.Failed? ==> r.min == DEFAULT_MIN) &&
            (maxReply.Failed? ==> r.max == DEFAULT_MAX) &&
            (resReply.Failed? ==> r.res == DEFAULT_RES) &&
            (minReply.Received? ==> r.min == UnpackLE16(minReply.bytes[0], minReply.bytes[1])) &&
            (maxReply.Received? ==> r.max == UnpackLE16(maxReply.bytes[0], maxReply.bytes[1])) &&
            (RangeFromRepliesAsWritten(minReply, maxReply, resReply).res > 0 <==>
               r == RangeFromRepliesAsWritten(minReply, maxReply, resReply))
  {
  }

  /** With every query failing, the range is the default one. */
  lemma AllFailedGivesDefault()
    ensures RangeFromReplies(Failed, Failed, Failed) == DefaultRange
  {
  }
}
