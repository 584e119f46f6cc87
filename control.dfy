/** The mixer controls of src/control.c: the module-global volume range, the
    lazy range query, and the "PCM Playback Volume" / "PCM Playback Switch"
    callbacks, with every USB control transfer they issue recorded in order.
    The device is an oracle: each call is given what allocation and each
    transfer return. */
module KatanaControl {
  import opened KernelTypes
  import opened VolumeMath

  // Class-specific request codes (section 5.2.2.4.3 and appendix A.9) and
  // Feature Unit control selectors (appendix A.10.2) of the USB Device Class
  // Definition for Audio Devices 1.0.
  const SET_CUR: int := 0x01
  const GET_CUR: int := 0x81
  const GET_MIN: int := 0x82
  const GET_MAX: int := 0x83
  const GET_RES: int := 0x84
  const CLASS_OUT: int := 0x21
  const CLASS_IN: int := 0xA1
  const VOLUME_LEFT: int := 0x0201
  const VOLUME_RIGHT: int := 0x0202
  const MUTE_MASTER: int := 0x0100
  /** wIndex: interface 0, Feature Unit 1. */
  const FEATURE_UNIT: int := 0x0100

  /** One usb_control_msg on endpoint 0; `payload` is what an OUT request
      sends (empty for an IN request). */
  datatype Transfer = Transfer(request: int, requestType: int, value: int, index: int, length: nat, payload: seq<byte>)

  function Get(request: int, value: int, length: nat): Transfer
  {
    Transfer(request, CLASS_IN, value, FEATURE_UNIT, length, [])
  }

  function SetCur(value: int, payload: seq<byte>): Transfer
  {
    Transfer(SET_CUR, CLASS_OUT, value, FEATURE_UNIT, |payload|, payload)
  }

  /** The three queries of katana_get_volume_range, in order. */
  function RangeQueries(): seq<Transfer>
  {
    [Get(GET_MIN, VOLUME_LEFT, 2), Get(GET_MAX, VOLUME_LEFT, 2), Get(GET_RES, VOLUME_LEFT, 2)]
  }

  /** What the device does during one katana_get_volume_range call. */
  datatype RangeAnswer = RangeAnswer(allocOk: bool, min: Reply, max: Reply, res: Reply)

  predicate Fits(q: RangeAnswer)
  {
    Holds(q.min, 2) && Holds(q.max, 2) && Holds(q.res, 2)
  }

  /** Allocation and the two SET_CUR statuses of one volume write. */
  datatype SetAnswer = SetAnswer(allocOk: bool, left: int, right: int)

  /** Allocation and the SET_CUR status of one mute write. */
  datatype MuteAnswer = MuteAnswer(allocOk: bool, status: int)

  /** Allocation and the GET_CUR reply of one read. */
  datatype GetAnswer = GetAnswer(allocOk: bool, reply: Reply)

  // ---------------------------------------------------------------------
  // What each helper puts on the wire and returns

  /** The range after the lazy initialization the helpers start with: it
      runs only before the first complete query, and changes nothing when
      its buffer cannot be allocated. */
  function RangeAfterInit(range: VolumeRange, initialized: bool, q: RangeAnswer): (r: VolumeRange)
    requires Fits(q)
    ensures WellFormed(range) && range.res >= 1 ==> WellFormed(r) && r.res >= 1
    ensures initialized || !q.allocOk ==> r == range
  {
    if initialized || !q.allocOk then range else RangeFromReplies(q.min, q.max, q.res)
  }

  function InitTransfers(initialized: bool, q: RangeAnswer): seq<Transfer>
  {
    if initialized || !q.allocOk then [] else RangeQueries()
  }

  /** The transfers of katana_set_hardware_volume_raw after its lazy
      initialization: the left channel, then the right one unless the left
      failed. */
  function VolumeSetTransfers(value: int, a: SetAnswer): seq<Transfer>
  {
    if !a.allocOk then []
    else if a.left < 0 then [SetCur(VOLUME_LEFT, PackLE16(value))]
    else [SetCur(VOLUME_LEFT, PackLE16(value)), SetCur(VOLUME_RIGHT, PackLE16(value))]
  }

  /** katana_set_hardware_volume_raw's return value: -ENOMEM, the first
      failing status, or 0. */
  function VolumeSetResult(a: SetAnswer): (err: int)
    ensures err <= 0
    ensures err == 0 <==> a.allocOk && a.left >= 0 && a.right >= 0
  {
    if !a.allocOk then -ENOMEM
    else if a.left < 0 then a.left
    else if a.right < 0 then a.right
    else 0
  }

  /** The write succeeds exactly when both channels were sent and accepted;
      every transfer is a SET_CUR of the volume control carrying the value
      in little-endian order. */
  lemma {:induction false} VolumeSetSemantics(value: int, a: SetAnswer)
    requires IsInt16(value)
    ensures VolumeSetResult(a) == 0 <==>
              VolumeSetTransfers(value, a) == [SetCur(VOLUME_LEFT, PackLE16(value)), SetCur(VOLUME_RIGHT, PackLE16(value))] &&
              a.right >= 0
    ensures VolumeSetResult(a) <= 0
    ensures forall t :: t in VolumeSetTransfers(value, a) ==>
              t.request == SET_CUR && t.requestType == CLASS_OUT && t.index == FEATURE_UNIT &&
              (t.value == VOLUME_LEFT || t.value == VOLUME_RIGHT) &&
              |t.payload| == 2 && UnpackLE16(t.payload[0], t.payload[1]) == value
  {
    PackUnpack(value);
  }

  function MuteTransfers(mute: int, m: MuteAnswer): seq<Transfer>
  {
    if m.allocOk then [SetCur(MUTE_MASTER, [MuteByte(mute)])] else []
  }

  /** katana_set_hardware_mute's return value: -ENOMEM, the failing
      status, or 0. */
  function MuteSetResult(m: MuteAnswer): (err: int)
    ensures err <= 0
    ensures err == 0 <==> m.allocOk && m.status >= 0
  {
    if !m.allocOk then -ENOMEM else if m.status < 0 then m.status else 0
  }

  /** The raw value katana_get_hardware_volume_raw returns: min when the
      buffer or the request fails. */
  function RawRead(range: VolumeRange, g: GetAnswer): (v: int)
    requires Holds(g.reply, 2) && IsInt16(range.min)
    ensures IsInt16(v)
    ensures g.allocOk && g.reply.Received? ==> v == UnpackLE16(g.reply.bytes[0], g.reply.bytes[1])
    ensures !g.allocOk || g.reply.Failed? ==> v == range.min
  {
    if !g.allocOk then range.min
    else match g.reply
      case Failed => range.min
      case Received(b) => UnpackLE16(b[0], b[1])
  }

  function GetTransfers(value: int, length: nat, g: GetAnswer): seq<Transfer>
  {
    if g.allocOk then [Get(GET_CUR, value, length)] else []
  }

  class Mixer {
    /** katana_vol_min, katana_vol_max, katana_vol_res. */
    var range: VolumeRange
    /** katana_vol_range_initialized. */
    var initialized: bool
    /** Every control transfer issued, oldest first. */
    var wire: seq<Transfer>

    ghost predicate Valid()
      reads this
    {
      WellFormed(range) && range.res >= 1
    }

    /** The globals as the module is loaded. */
    constructor ()
      ensures Valid()
      ensures range == DefaultRange && !initialized && wire == []
    {
      range := DefaultRange;
      initialized := false;
      wire := [];
    }

    /** katana_get_volume_range (src/control.c:23-101): -ENOMEM with nothing
        changed when the buffer cannot be allocated; otherwise the three
        queries, each reply or its fallback installed (a non-positive
        resolution replaced by 1), the flag set, and 0. */
    method GetVolumeRange(q: RangeAnswer) returns (err: int)
      requires Valid() && Fits(q)
      modifies this
      ensures Valid()
      ensures !q.allocOk ==> err == -ENOMEM && range == old(range) && initialized == old(initialized)
      ensures q.allocOk ==> err == 0 && range == RangeFromReplies(q.min, q.max, q.res) && initialized
      ensures wire == old(wire) + (if q.allocOk then RangeQueries() else [])
    {
      if !q.allocOk {
        return -ENOMEM;
      }
      wire := wire + RangeQueries();
      range := RangeFromReplies(q.min, q.max, q.res);
      initialized := true;
      err := 0;
    }

    /** The lazy initialization every helper starts with. */
    method EnsureRange(q: RangeAnswer)
      requires Valid() && Fits(q)
      modifies this
      ensures Valid()
      ensures range == RangeAfterInit(old(range), old(initialized), q)
      ensures initialized == (old(initialized) || q.allocOk)
      ensures wire == old(wire) + InitTransfers(old(initialized), q)
    {
      if !initialized {
        var _ := GetVolumeRange(q);
      }
    }

    /** katana_set_hardware_volume_raw (src/control.c:104-171). */
    method SetHardwareVolumeRaw(q: RangeAnswer, value: int, a: SetAnswer) returns (err: int)
      requires Valid() && Fits(q) && IsInt16(value)
      modifies this
      ensures Valid()
      ensures range == RangeAfterInit(old(range), old(initialized), q)
      ensures initialized == (old(initialized) || q.allocOk)
      ensures wire == old(wire) + InitTransfers(old(initialized), q) + VolumeSetTransfers(value, a)
      ensures err == VolumeSetResult(a)
    {
      EnsureRange(q);
      if !a.allocOk {
        return -ENOMEM;
      }
      var data := PackLE16(value);
      wire := wire + [SetCur(VOLUME_LEFT, data)];
      if a.left < 0 {
        return a.left;
      }
      wire := wire + [SetCur(VOLUME_RIGHT, data)];
      if a.right < 0 {
        return a.right;
      }
      err := 0;
    }

    /** katana_set_hardware_mute (src/control.c:386-427). */
    method SetHardwareMute(mute: int, m: MuteAnswer) returns (err: int)
      modifies this
      ensures range == old(range) && initialized == old(initialized)
      ensures wire == old(wire) + MuteTransfers(mute, m)
      ensures err == MuteSetResult(m)
    {
      if !m.allocOk {
        return -ENOMEM;
      }
      wire := wire + [SetCur(MUTE_MASTER, [MuteByte(mute)])];
      if m.status < 0 {
        return m.status;
      }
      err := 0;
    }

    /** katana_set_hardware_volume (src/control.c:174-269): the percentage
        converted with the range after the lazy initialization, written to
        both channels, and a successful non-zero volume followed by an
        unmute whose result is ignored. */
    method SetHardwareVolume(q: RangeAnswer, percent: int, a: SetAnswer, unmute: MuteAnswer) returns (err: int)
      requires Valid() && Fits(q)
      modifies this
      ensures Valid()
      ensures range == RangeAfterInit(old(range), old(initialized), q)
      ensures initialized == (old(initialized) || q.allocOk)
      ensures err == VolumeSetResult(a)
      ensures wire == old(wire) + InitTransfers(old(initialized), q) +
                      VolumeSetTransfers(PercentToRaw(range, percent), a) +
                      (if err == 0 && percent > 0 then MuteTransfers(0, unmute) else [])
    {
      EnsureRange(q);
      if !a.allocOk {
        return -ENOMEM;
      }
      var value := PercentToRaw(range, percent);
      var data := PackLE16(value);
      wire := wire + [SetCur(VOLUME_LEFT, data)];
      if a.left < 0 {
        return a.left;
      }
      wire := wire + [SetCur(VOLUME_RIGHT, data)];
      if a.right < 0 {
        return a.right;
      }
      if percent > 0 {
        var _ := SetHardwareMute(0, unmute);
      }
      err := 0;
    }

    /** katana_get_hardware_volume_raw (src/control.c:272-321). */
    method GetHardwareVolumeRaw(q: RangeAnswer, g: GetAnswer) returns (v: int)
      requires Valid() && Fits(q) && Holds(g.reply, 2)
      modifies this
      ensures Valid()
      ensures range == RangeAfterInit(old(range), old(initialized), q)
      ensures initialized == (old(initialized) || q.allocOk)
      ensures wire == old(wire) + InitTransfers(old(initialized), q) + GetTransfers(VOLUME_LEFT, 2, g)
      ensures v == RawRead(range, g)
    {
      EnsureRange(q);
      if !g.allocOk {
        return range.min;
      }
      wire := wire + [Get(GET_CUR, VOLUME_LEFT, 2)];
      match g.reply {
        case Failed => v := range.min;
        case Received(b) => v := UnpackLE16(b[0], b[1]);
      }
    }

    /** katana_get_hardware_volume (src/control.c:324-383): -1 when the
        read fails, otherwise a percentage in [0, 100]. */
    method GetHardwareVolume(q: RangeAnswer, g: GetAnswer) returns (percent: int)
      requires Valid() && Fits(q) && Holds(g.reply, 2)
      modifies this
      ensures Valid()
      ensures range == RangeAfterInit(old(range), old(initialized), q)
      ensures initialized == (old(initialized) || q.allocOk)
      ensures wire == old(wire) + InitTransfers(old(initialized), q) + GetTransfers(VOLUME_LEFT, 2, g)
      ensures !g.allocOk || g.reply.Failed? ==> percent == -1
      ensures g.allocOk && g.reply.Received? ==>
                percent == RawToPercent(range, UnpackLE16(g.reply.bytes[0], g.reply.bytes[1])) &&
                0 <= percent <= 100
    {
      EnsureRange(q);
      if !g.allocOk {
        return -1;
      }
      wire := wire + [Get(GET_CUR, VOLUME_LEFT, 2)];
      match g.reply {
        case Failed => percent := -1;
        case Received(b) =>
          var value := UnpackLE16(b[0], b[1]);
          RawToPercentBounds(range, value);
          percent := RawToPercent(range, value);
      }
    }

    /** katana_get_hardware_mute (src/control.c:430-472): -1 when the read
        fails, otherwise the switch state decoded from the inverted byte. */
    method GetHardwareMute(g: GetAnswer) returns (mute: int)
      requires Holds(g.reply, 1)
      modifies this
      ensures range == old(range) && initialized == old(initialized)
      ensures wire == old(wire) + GetTransfers(MUTE_MASTER, 1, g)
      ensures !g.allocOk || g.reply.Failed? ==> mute == -1
      ensures g.allocOk && g.reply.Received? ==> mute == MuteFromByte(g.reply.bytes[0])
    {
      if !g.allocOk {
        return -1;
      }
      wire := wire + [Get(GET_CUR, MUTE_MASTER, 1)];
      match g.reply {
        case Failed => mute := -1;
        case Received(b) => mute := MuteFromByte(b[0]);
      }
    }

    /** katana_volume_get (src/control.c:485-506): 0 without a device or for
        a raw value below min, otherwise the whole steps above min; the
        callback itself always returns 0. */
    method VolumeGet(hasDevice: bool, q: RangeAnswer, g: GetAnswer) returns (value: int, ret: int)
      requires Valid() && Fits(q) && Holds(g.reply, 2)
      modifies this
      ensures Valid() && ret == 0
      ensures !hasDevice ==> value == 0 && range == old(range) && initialized == old(initialized) && wire == old(wire)
      ensures hasDevice ==>
                range == RangeAfterInit(old(range), old(initialized), q) &&
                initialized == (old(initialized) || q.allocOk) &&
                wire == old(wire) + InitTransfers(old(initialized), q) + GetTransfers(VOLUME_LEFT, 2, g) &&
                value == RawToSteps(range, RawRead(range, g))
      ensures hasDevice && range.min <= range.max && RawRead(range, g) <= range.max ==>
                0 <= value <= InfoSteps(range)
    {
      ret := 0;
      if !hasDevice {
        return 0, 0;
      }
      var raw := GetHardwareVolumeRaw(q, g);
      if raw < range.min {
        return 0, 0;
      }
      if raw <= range.max {
        StepsWithinInfo(range, raw);
      }
      value := CDiv(raw - range.min, range.res);
    }

    /** katana_volume_put (src/control.c:508-538): the step count converted
        with the range after the lazy initialization (truncated to int16
        and then clamped), written to both channels; 1 exactly when the
        write succeeded. The write has its own lazy initialization, which
        runs again when the first one could not allocate. */
    method VolumePut(hasDevice: bool, q: RangeAnswer, steps: int, q2: RangeAnswer, a: SetAnswer) returns (ret: int)
      requires Valid() && Fits(q) && Fits(q2)
      modifies this
      ensures Valid()
      ensures !hasDevice ==> ret == 0 && range == old(range) && initialized == old(initialized) && wire == old(wire)
      ensures hasDevice ==>
                var put := RangeAfterInit(old(range), old(initialized), q);
                var raw := StepsToRaw(put, steps);
                (put.min <= put.max ==> put.min <= raw <= put.max) &&
                range == RangeAfterInit(put, old(initialized) || q.allocOk, q2) &&
                initialized == (old(initialized) || q.allocOk || q2.allocOk) &&
                wire == old(wire) + InitTransfers(old(initialized), q) +
                        InitTransfers(old(initialized) || q.allocOk, q2) + VolumeSetTransfers(raw, a) &&
                (ret == 1 <==> VolumeSetResult(a) == 0) && (ret == 0 || ret == 1)
    {
      if !hasDevice {
        return 0;
      }
      EnsureRange(q);
      // `int alsa_steps = value[0]` narrows the long first
      var raw := StepsToRaw(range, Int32(steps));
      StepsNarrowingInvisible(range, steps);
      var err := SetHardwareVolumeRaw(q2, raw, a);
      ret := if err == 0 then 1 else 0;
    }

    /** katana_volume_info (src/control.c:540-574): the range query runs
        only with a device and before the first complete query; the control
        ranges over 0 to the whole steps between min and max. */
    method VolumeInfo(hasDevice: bool, q: RangeAnswer) returns (infoMin: int, infoMax: int)
      requires Valid() && Fits(q)
      modifies this
      ensures Valid()
      ensures !hasDevice ==> range == old(range) && initialized == old(initialized) && wire == old(wire)
      ensures hasDevice ==>
                range == RangeAfterInit(old(range), old(initialized), q) &&
                initialized == (old(initialized) || q.allocOk) &&
                wire == old(wire) + InitTransfers(old(initialized), q)
      ensures infoMin == 0 && infoMax == InfoSteps(range)
      ensures range.min <= range.max ==> 0 <= infoMax && infoMax * range.res <= range.max - range.min
    {
      if !initialized && hasDevice {
        var _ := GetVolumeRange(q);
      }
      infoMin := 0;
      infoMax := InfoSteps(range);
    }

    /** katana_mute_get (src/control.c:577-593): 1 (muted) without a device
        or when the read fails. */
    method MuteGet(hasDevice: bool, g: GetAnswer) returns (value: int)
      requires Holds(g.reply, 1)
      modifies this
      ensures range == old(range) && initialized == old(initialized)
      ensures !hasDevice ==> value == 1 && wire == old(wire)
      ensures hasDevice ==> wire == old(wire) + GetTransfers(MUTE_MASTER, 1, g)
      ensures hasDevice && g.allocOk && g.reply.Received? ==> value == MuteFromByte(g.reply.bytes[0])
      ensures hasDevice && (!g.allocOk || g.reply.Failed?) ==> value == 1
      ensures value == 0 || value == 1
    {
      if !hasDevice {
        return 1;
      }
      var mute := GetHardwareMute(g);
      if mute < 0 {
        mute := 1;
      }
      value := mute;
    }

    /** katana_mute_put (src/control.c:595-610): 1 exactly when the write
        succeeded. */
    method MutePut(hasDevice: bool, newMute: int, m: MuteAnswer) returns (ret: int)
      modifies this
      ensures range == old(range) && initialized == old(initialized)
      ensures !hasDevice ==> ret == 0 && wire == old(wire)
      ensures hasDevice ==> wire == old(wire) + MuteTransfers(Int32(newMute), m) && (ret == 1 <==> MuteSetResult(m) == 0)
      ensures ret == 0 || ret == 1
    {
      if !hasDevice {
        return 0;
      }
      // `int new_mute = value[0]` narrows the long first
      var err := SetHardwareMute(Int32(newMute), m);
      ret := if err == 0 then 1 else 0;
    }
  }

  /** A mute write succeeds exactly when the one-byte SET_CUR was sent and
      accepted, and the byte it carries reads back as the switch value. */
  lemma MuteSetSemantics(mute: int, m: MuteAnswer)
    ensures MuteSetResult(m) == 0 <==> m.allocOk && m.status >= 0
    ensures m.allocOk ==>
              MuteTransfers(mute, m) == [SetCur(MUTE_MASTER, [MuteByte(mute)])] &&
              MuteFromByte(MuteTransfers(mute, m)[0].payload[0]) == (if mute != 0 then 1 else 0)
    ensures !m.allocOk ==> MuteTransfers(mute, m) == []
  {
    MuteRoundTrip(mute);
  }

  /** katana_mute_put narrows the control's long value to int before it
      picks the byte (src/control.c:602): the switch mutes exactly when the
      value is not a multiple of 2^32, so the value 2^32 unmutes. */
  lemma MuteNarrowing(mute: int)
    ensures MuteByte(Int32(mute)) == 0 <==> mute % U32_MODULUS != 0
    ensures MuteByte(Int32(U32_MODULUS)) == 1 && MuteByte(U32_MODULUS) == 0
  {
    MuteRoundTrip(Int32(mute));
  }
}
