/** src/katana_usb_audio.c: the disconnect gate that every blocking ALSA
    callback passes through, the teardown done on USB disconnect, and the two
    readiness flags that decide when the sound card is registered.

    Each call is one atomic step of a sequential state machine; the atomics,
    the completion object's wakeups and the 10 s timeout are not modelled
    beyond the state they leave behind. */
module KatanaUsbAudio {
  import opened KernelTypes

  /** The globals `disconnect_in_progress`, `active_operations` and the
      `done` state of `disconnect_completion` (completed since last reinit). */
  datatype GateState = GateState(disconnecting: bool, active: int, completed: bool)

  /** The gate after a call to katana_enter_operation, and its return value. */
  datatype Entry = Entry(gate: GateState, err: int)

  /** katana_enter_operation: refused while a disconnect is in progress,
      otherwise the caller is counted as active. */
  function EnterStep(g: GateState): (r: Entry)
    ensures r.err == 0 <==> !g.disconnecting
    ensures r.err != 0 ==> r.err == -ENODEV && r.gate == g
    ensures r.gate.disconnecting == g.disconnecting && r.gate.completed == g.completed
  {
    if g.disconnecting then Entry(g, -ENODEV)
    else Entry(g.(active := g.active + 1), 0)
  }

  /** katana_exit_operation: `atomic_dec_and_test`, and `complete()` when the
      count reached zero while a disconnect waits. */
  function ExitStep(g: GateState): (r: GateState)
    ensures r.active == g.active - 1 && r.disconnecting == g.disconnecting
    ensures r.completed <==> g.completed || (r.active == 0 && g.disconnecting)
  {
    var active := g.active - 1;
    GateState(g.disconnecting, active, g.completed || (active == 0 && g.disconnecting))
  }

  /** Steps 1 and 3 of katana_usb_disconnect up to the wait: raise the flag,
      and re-arm the completion when there is someone to wait for. */
  function BeginDisconnect(g: GateState): (r: GateState)
    ensures r.disconnecting && r.active == g.active
    ensures MustWait(g) ==> !r.completed
    ensures !MustWait(g) ==> r.completed == g.completed
  {
    GateState(true, g.active, if g.active > 0 then false else g.completed)
  }

  /** Whether katana_usb_disconnect waits for the completion at all. */
  predicate MustWait(g: GateState)
  {
    g.active > 0
  }

  /** Step 5 of katana_usb_disconnect as written: the gate is reset for a
      reconnection, whatever operations are still outstanding. */
  function FinishDisconnect(g: GateState): GateState
  {
    GateState(false, 0, g.completed)
  }

  /** Step 5 as intended: the flag is lowered but the counter keeps the
      operations still inside the gate, whose exits bring it back to zero.
      After a wait that completed the counter is zero anyway, so the two
      differ only after a timeout. */
  function FinishDisconnectKeepingCount(g: GateState): (r: GateState)
    ensures !r.disconnecting && r.active == g.active && r.completed == g.completed
    ensures g.active == 0 ==> r == FinishDisconnect(g)
  {
    g.(disconnecting := false)
  }

  datatype GateOp = EnterOp | ExitOp

  /** The gate after the calls `ops`, in order, and the return values of the
      calls to `enter` among them, in order. */
  function Run(g: GateState, ops: seq<GateOp>): (r: (GateState, seq<int>))
    ensures |r.1| + CountExits(ops) == |ops|
    decreases |ops|
  {
    if ops == [] then (g, [])
    else
      match ops[0]
      case EnterOp =>
        var e := EnterStep(g);
        var rest := Run(e.gate, ops[1..]);
        (rest.0, [e.err] + rest.1)
      case ExitOp => Run(ExitStep(g), ops[1..])
  }

  function CountExits(ops: seq<GateOp>): (n: nat)
    ensures n <= |ops|
  {
    if ops == [] then 0 else (if ops[0] == ExitOp then 1 else 0) + CountExits(ops[1..])
  }

  /** Once the disconnect flag is up, every `enter` in any sequence of calls is
      refused with -ENODEV, no call raises the counter, and the flag stays up. */
  lemma {:induction false} ClosedGateRefusesEntry(g: GateState, ops: seq<GateOp>)
    requires g.disconnecting
    ensures Run(g, ops).0.disconnecting
    ensures Run(g, ops).0.active == g.active - CountExits(ops) <= g.active
    ensures forall i :: 0 <= i < |Run(g, ops).1| ==> Run(g, ops).1[i] == -ENODEV
    decreases |ops|
  {
    if ops != [] {
      match ops[0]
      case EnterOp =>
        ClosedGateRefusesEntry(g, ops[1..]);
      case ExitOp =>
        ClosedGateRefusesEntry(ExitStep(g), ops[1..]);
    }
  }

  /** A gated operation that entered successfully and then exits leaves the
      gate exactly as it found it, and signals nobody. */
  lemma EnterExitRestores(g: GateState)
    requires !g.disconnecting
    ensures EnterStep(g).err == 0 && ExitStep(EnterStep(g).gate) == g
  {
  }

  /** `n` exits in a row. */
  function Exits(g: GateState, n: nat): GateState
    decreases n
  {
    if n == 0 then g else Exits(ExitStep(g), n - 1)
  }

  /** Disconnect waits for `n` active operations: after `k <= n` of them have
      exited, `n - k` are left, and the completion has been signalled exactly
      when `k == n`, that is by the last one. */
  lemma {:induction false} WaitEndsAtLastExit(g: GateState, k: nat)
    requires MustWait(g) && k <= g.active
    ensures Exits(BeginDisconnect(g), k) == GateState(true, g.active - k, k == g.active)
  {
    var h := BeginDisconnect(g);
    ExitsCount(h, g.active, k);
  }

  lemma {:induction false} ExitsCount(h: GateState, n: int, k: nat)
    requires h.disconnecting && h.active == n > 0 && !h.completed && k <= n
    ensures Exits(h, k) == GateState(true, n - k, k == n)
    decreases k
  {
    if k > 0 {
      var h' := ExitStep(h);
      assert Exits(h, k) == Exits(h', k - 1);
      if n == 1 {
        assert Exits(h', k - 1) == h';
      } else {
        ExitsCount(h', n - 1, k - 1);
      }
    }
  }

  /** The teardown zeroes the counter even when it gave up waiting: if `k`
      operations were still inside the gate, their later exits drive the
      counter to `-k`, so a later operation that enters is not seen by the
      next disconnect, which then does not wait for it. */
  lemma {:induction false} LateExitsHideActiveOperation(g: GateState, k: nat)
    requires k >= 1
    ensures var after := Exits(FinishDisconnect(BeginDisconnect(g)), k);
            after.active + k == 0 && !MustWait(BeginDisconnect(EnterStep(after).gate))
  {
    LateExits(FinishDisconnect(BeginDisconnect(g)), k);
  }

  /** With the counter kept, the same history goes right: the `k`
      operations left over by a timed-out wait bring the counter back to
      zero as they exit, and never below it; an operation that enters
      afterwards is counted, and the next disconnect waits for it. */
  lemma {:induction false} KeptCountSeesLaterOperation(g: GateState, k: nat)
    requires g.active == k >= 1
    ensures forall j :: 0 <= j <= k ==> Exits(FinishDisconnectKeepingCount(BeginDisconnect(g)), j).active == k - j
    ensures var after := Exits(FinishDisconnectKeepingCount(BeginDisconnect(g)), k);
            after.active == 0 && MustWait(BeginDisconnect(EnterStep(after).gate)) &&
            BeginDisconnect(EnterStep(after).gate).active == 1
  {
    var h := FinishDisconnectKeepingCount(BeginDisconnect(g));
    forall j | 0 <= j <= k
      ensures Exits(h, j).active == k - j
    {
      LateExits(h, j);
    }
    LateExits(h, k);
  }

  lemma {:induction false} LateExits(h: GateState, k: nat)
    requires !h.disconnecting
    ensures Exits(h, k) == h.(active := h.active - k)
    decreases k
  {
    if k > 0 {
      LateExits(ExitStep(h), k - 1);
    }
  }

  /** The three gate globals, one object shared by every caller. */
  class OperationGate {
    var disconnectInProgress: bool
    var activeOperations: int
    var completionDone: bool

    function State(): GateState
      reads this
    {
      GateState(disconnectInProgress, activeOperations, completionDone)
    }

    /** The initial values of the globals (ATOMIC_INIT(0), DECLARE_COMPLETION). */
    constructor ()
      ensures State() == GateState(false, 0, false)
    {
      disconnectInProgress, activeOperations, completionDone := false, 0, false;
    }

    /** katana_enter_operation (src/katana_usb_audio.c:46-62). */
    method Enter() returns (err: int)
      modifies this
      ensures State() == EnterStep(old(State())).gate
      ensures err == EnterStep(old(State())).err
    {
      if disconnectInProgress {
        return -ENODEV;
      }
      activeOperations := activeOperations + 1;
      return 0;
    }

    /** katana_exit_operation (src/katana_usb_audio.c:64-72). */
    method Exit()
      modifies this
      ensures State() == ExitStep(old(State()))
    {
      activeOperations := activeOperations - 1;
      if activeOperations == 0 {
        if disconnectInProgress {
          completionDone := true;
        }
      }
    }
  }

  /** The ALSA card as far as the driver builds it. */
  datatype Card = Card(index: nat, volumeControl: bool, muteControl: bool, pcm: bool, registered: bool)

  /** Results of the ALSA calls made by katana_usb_probe (true = success):
      snd_card_new, snd_ctl_new1/snd_ctl_add for both controls,
      katana_pcm_new and snd_card_register. */
  datatype ProbeOutcome = ProbeOutcome(
    cardNew: bool,
    volumeCtlNew: bool, volumeCtlAdd: bool,
    muteCtlNew: bool, muteCtlAdd: bool,
    pcmNew: bool,
    register: bool)

  /** The module-global state of the driver: the card, both readiness flags,
      and the gate. The interface numbers come from usb.h, which is not part
      of this model, so they are parameters. */
  class AudioDriver {
    const controlIface: int
    const streamIface: int
    const gate: OperationGate
    var card: Option<Card>
    var controlInterfaceReady: bool
    var streamInterfaceReady: bool

    ghost predicate Valid()
      reads this
    {
      && (card.Some? && card.value.registered ==> controlInterfaceReady && streamInterfaceReady)
      && (controlInterfaceReady ==> card.Some? && card.value.volumeControl && card.value.muteControl)
      && (streamInterfaceReady ==> card.Some? && card.value.pcm)
    }

    constructor (controlIfaceId: int, streamIfaceId: int)
      ensures Valid() && fresh(gate)
      ensures controlIface == controlIfaceId && streamIface == streamIfaceId
      ensures card.None? && !controlInterfaceReady && !streamInterfaceReady
      ensures gate.State() == GateState(false, 0, false)
    {
      controlIface, streamIface := controlIfaceId, streamIfaceId;
      gate := new OperationGate();
      card := None;
      controlInterfaceReady, streamInterfaceReady := false, false;
    }

    /** katana_usb_probe (src/katana_usb_audio.c:74-194). `freeIndex` is the
        first card index not in use, which the source finds by probing
        snd_card_ref. */
    method Probe(ifnum: int, freeIndex: nat, outcome: ProbeOutcome) returns (err: int)
      requires Valid()
      modifies this
      ensures Valid()
      ensures err == 0 || err == -ENODEV
      ensures ifnum != controlIface && ifnum != streamIface ==>
        err == -ENODEV && card == old(card)
        && controlInterfaceReady == old(controlInterfaceReady) && streamInterfaceReady == old(streamInterfaceReady)
      // a card is created only when there is none, and never replaced
      ensures old(card).Some? ==> card.Some? && card.value.index == old(card).value.index
      ensures old(card).None? && card.Some? ==> card.value.index == freeIndex
      // probing never clears a readiness flag or unregisters the card
      ensures old(controlInterfaceReady) ==> controlInterfaceReady
      ensures old(streamInterfaceReady) ==> streamInterfaceReady
      ensures old(card).Some? && old(card).value.registered ==> card.value.registered
      // the card gets registered only once both interfaces are ready
      ensures card.Some? && card.value.registered ==> controlInterfaceReady && streamInterfaceReady
      ensures err == 0 ==>
        && card.Some?
        && (ifnum == controlIface ==> controlInterfaceReady)
        && (ifnum == streamIface ==> streamInterfaceReady)
        && (controlInterfaceReady && streamInterfaceReady ==> card.value.registered)
    {
      if ifnum != controlIface && ifnum != streamIface {
        return -ENODEV;
      }
      if card.None? {
        if !outcome.cardNew {
          return -ENODEV;
        }
        card := Some(Card(freeIndex, false, false, false, false));
      }
      if ifnum == controlIface && !controlInterfaceReady {
        if !outcome.volumeCtlNew || !outcome.volumeCtlAdd {
          return -ENODEV;
        }
        card := Some(card.value.(volumeControl := true));
        if !outcome.muteCtlNew || !outcome.muteCtlAdd {
          return -ENODEV;
        }
        card := Some(card.value.(muteControl := true));
        controlInterfaceReady := true;
      }
      if ifnum == streamIface && !streamInterfaceReady {
        if !outcome.pcmNew {
          return -ENODEV;
        }
        card := Some(card.value.(pcm := true));
        streamInterfaceReady := true;
      }
      if controlInterfaceReady && streamInterfaceReady {
        if !outcome.register {
          return -ENODEV;
        }
        card := Some(card.value.(registered := true));
      }
      return 0;
    }

    /** Steps 1 to 3 of katana_usb_disconnect (src/katana_usb_audio.c:207-226)
        up to the wait; the caller then waits when `mustWait`. */
    method BeginTeardown() returns (mustWait: bool)
      modifies gate
      ensures gate.State() == BeginDisconnect(old(gate.State()))
      ensures mustWait == MustWait(old(gate.State()))
    {
      gate.disconnectInProgress := true;
      mustWait := gate.activeOperations > 0;
      if mustWait {
        gate.completionDone := false;
      }
    }

    /** Steps 4 and 5 of katana_usb_disconnect (src/katana_usb_audio.c:228-234),
        after the wait completed or timed out. The counter is kept rather
        than zeroed, which is the correction LateExitsHideActiveOperation
        calls for. */
    method FinishTeardown()
      modifies this, gate
      ensures card.None?
      ensures controlInterfaceReady == old(controlInterfaceReady) && streamInterfaceReady == old(streamInterfaceReady)
      ensures gate.State() == FinishDisconnectKeepingCount(old(gate.State()))
    {
      card := None;
      gate.disconnectInProgress := false;
    }

    /** katana_usb_disconnect (src/katana_usb_audio.c:196-241) as one step: with
        a card, the flag goes up first, the card is dropped after the
        (possibly timed out) wait, and the flag comes down again; both
        readiness flags are cleared in every case. */
    method Disconnect()
      requires Valid()
      modifies this, gate
      ensures Valid()
      ensures card.None? && !controlInterfaceReady && !streamInterfaceReady
      ensures old(card).Some? ==> gate.State() == FinishDisconnectKeepingCount(BeginDisconnect(old(gate.State())))
      ensures old(card).None? ==> gate.State() == old(gate.State())
    {
      if card.Some? {
        var mustWait := BeginTeardown();
        // wait_for_completion_timeout: no other call runs in this step
        FinishTeardown();
      }
      controlInterfaceReady := false;
      streamInterfaceReady := false;
    }
  }
}
