/** The two coils of the K0 relay: when both are driven at the same time. */
module Coils {
  import opened Config
  import opened Frame
  import opened CanChannel
  import opened Filter
  import opened Device
  import opened Relay
  import opened Protocol
  import opened Commands
  import opened CommandProofs
  import opened Machine
  import opened Runs

  /** The pin levels a history leaves. */
  function Levels(h: History): Pins {
    match h
    case Start => Pins(false, false, false, false, false, false)
    case Then(past, PinWrite(pin, level)) => Levels(past).Set(pin, level)
    case Then(past, Reboot(pins)) => pins
    case Then(past, _) => Levels(past)
  }

  /** The ticks spent so far with both coils driven. */
  function BothTicks(h: History): nat {
    match h
    case Start => 0
    case Then(past, Delay(t)) =>
      BothTicks(past) + if Levels(past).relayClose && Levels(past).relayOpen then t else 0
    case Then(past, _) => BothTicks(past)
  }

  predicate Leveled(d: Device) {
    d.pins == Levels(d.history)
  }

  /** The pins still show the history, the coils are as before and were not driven together. */
  predicate CoilsKept(d: Device, e: Device) {
    && Leveled(e) && BothTicks(e.history) == BothTicks(d.history)
    && e.pins.relayClose == d.pins.relayClose && e.pins.relayOpen == d.pins.relayOpen
  }

  lemma LogKeeps(d: Device, event: Event)
    requires Leveled(d) && !event.PinWrite? && !event.Reboot? && !event.Delay?
    ensures CoilsKept(d, d.Log(event)) && d.Log(event).pins == d.pins
  {
  }

  lemma DriveKeeps(d: Device, pin: Pin, level: bool)
    requires Leveled(d) && !pin.RelayClose? && !pin.RelayOpen?
    ensures CoilsKept(d, d.Drive(pin, level))
  {
  }

  lemma {:induction false} AwaitCoils(d: Device, env: Environment, wanted: bool, n: nat)
    requires Leveled(d) && !d.pins.relayOpen
    ensures CoilsKept(d, Await(d, env, wanted, n))
    decreases n
  {
    if n > 0 {
      var (e, level) := ReadContact(d, env);
      LogKeeps(d, ContactRead(level));
      AwaitCoils(e.Wait(1), env, wanted, n - 1);
    }
  }

  /** A K0 open pulses the opening coil for 10 ticks and leaves the closing coil alone; a K0 close leaves
      the closing coil driven. */
  lemma K0Coils(d: Device, env: Environment, open: bool)
    requires Leveled(d) && !d.pins.relayOpen
    ensures var e := SetK0(d, env, open);
            && Leveled(e) && !e.pins.relayOpen
            && e.pins.relayClose == (if open then d.pins.relayClose else true)
            && BothTicks(e.history) == BothTicks(d.history) + (if open && d.pins.relayClose then 10 else 0)
  {
    hide Await;
    if open {
      var on := d.Drive(RelayOpen, true);
      var waited := on.Wait(PULSE);
      assert BothTicks(waited.history) == BothTicks(d.history) + (if d.pins.relayClose then 10 else 0);
      AwaitCoils(waited.Drive(RelayOpen, false), env, true, CONTACT_POLLS);
    } else {
      var on := d.Drive(RelayClose, true);
      var off := on.Drive(RelayOpen, false);
      assert Leveled(on) && BothTicks(on.history) == BothTicks(d.history);
      assert Leveled(off) && BothTicks(off.history) == BothTicks(on.history);
      AwaitCoils(off, env, false, CONTACT_POLLS);
    }
  }

  lemma PortsCoils(d: Device, env: Environment, port: bv8, open: bool)
    requires Leveled(d) && !d.pins.relayOpen
    ensures var e := SetPorts(d, env, port, open);
            && Leveled(e) && !e.pins.relayOpen
            && e.pins.relayClose == (d.pins.relayClose || (PortBit(port, 0) && !open))
            && BothTicks(e.history)
               == BothTicks(d.history) + (if PortBit(port, 0) && open && d.pins.relayClose then 10 else 0)
  {
    hide PortBit, SetK0, Levels, BothTicks;
    K0Coils(d, env, open);
    var d0 := if PortBit(port, 0) then SetK0(d, env, open) else d;
    DriveKeeps(d0, Ct1, open);
    DriveKeeps(d0.Drive(Ct1, open), K1, !open);
    var d1 := if PortBit(port, 1) then SetK1(d0, open) else d0;
    DriveKeeps(d1, Ct2, open);
    DriveKeeps(d1.Drive(Ct2, open), K2, !open);
  }

  /** A relay command on resting coils drives one of them at a time and leaves both at rest. */
  lemma RelayCoils(d: Device, env: Environment, closed: bool)
    requires Leveled(d) && !d.pins.relayClose && !d.pins.relayOpen
    ensures CoilsKept(d, SetRelay(d, env, closed))
  {
    var (d1, first) := ReadContact(d, env);
    LogKeeps(d, ContactRead(first));
    if first == closed {
      SaveCoils(d1, env, closed);
    } else {
      var coil := if closed then RelayClose else RelayOpen;
      PulseCoils(d1, coil);
      var (d2, second) := ReadContact(Pulse(d1, coil), env);
      LogKeeps(Pulse(d1, coil), ContactRead(second));
      SaveCoils(d2, env, closed);
    }
    hide SaveRelay, Pulse, Levels, BothTicks;
  }

  lemma PulseCoils(d: Device, coil: Pin)
    requires Leveled(d) && !d.pins.relayClose && !d.pins.relayOpen && (coil.RelayClose? || coil.RelayOpen?)
    ensures CoilsKept(d, Pulse(d, coil))
  {
    var on := d.Drive(coil, true);
    assert Leveled(on) && BothTicks(on.history) == BothTicks(d.history);
    assert Leveled(on.Wait(PULSE)) && BothTicks(on.Wait(PULSE).history) == BothTicks(d.history);
  }

  lemma SaveCoils(d: Device, env: Environment, closed: bool)
    requires Leveled(d) && !d.pins.relayClose
    ensures CoilsKept(d, SaveRelay(d, env, closed).0)
  {
    hide AwaitVisible, Put;
    ModifyCoils(d, env, SwitchState, Wide8(StateByte(closed)));
    AwaitVisibleCoils(Modify(d, env, SwitchState, Wide8(StateByte(closed))).0, env, SAVE_POLLS);
  }

  lemma ModifyCoils(d: Device, env: Environment, key: Key, v: bv32)
    requires Leveled(d)
    ensures CoilsKept(d, Modify(d, env, key, v).0)
  {
    hide Put;
  }

  lemma {:induction false} AwaitVisibleCoils(d: Device, env: Environment, n: nat)
    requires Leveled(d) && !d.pins.relayClose
    ensures CoilsKept(d, AwaitVisible(d, env, n).0)
    decreases n
  {
    if n > 0 {
      AwaitVisibleCoils(d.Wait(1), env, n - 1);
    }
  }

  lemma ReadsCoils(d: Device, env: Environment)
    requires Leveled(d)
    ensures CoilsKept(d, PortState(d, env).0) && CoilsKept(d, LampState(d, env).0) && CoilsKept(d, RelayState(d, env).0)
  {
    hide BitAt, Levels, BothTicks;
    var (e, contact) := ReadContact(d, env);
    LogKeeps(d, ContactRead(contact));
    LogKeeps(e, InputRead(env.input(e.history)));
  }

  // ------------------------------------------------------------------ over runs

  /** Between inputs the opening coil is off, and only a YK device may leave the closing coil driven. */
  predicate Resting(d: Device) {
    Leveled(d) && !d.pins.relayOpen && (d.pins.relayClose ==> d.table.YkTable?)
  }

  /** The coils after a command: e from d, where close and open say whether K0 was told to close or open. */
  predicate CoilsAfter(d: Device, e: Device, close: bool, open: bool) {
    && Leveled(e) && !e.pins.relayOpen && e.pins.relayClose == (d.pins.relayClose || close)
    && BothTicks(e.history) == BothTicks(d.history) + if open && d.pins.relayClose then 10 else 0
  }

  lemma ReactCoils(d: Device, env: Environment, h: Handler, data: Buffer)
    requires Resting(d) && Knows(d.table, h)
    ensures var k0 := h.YkControl? && PortBit(data[5], 0);
            CoilsAfter(d, React(d, env, h, data).0, k0 && data[6] == 0, k0 && data[6] != 0)
  {
    hide PortBit, Levels, BothTicks, SetPorts, PortState, LampState, RelayState, SetRelay, Modify, LockType, Get, SnAt,
      SnBytes, ResultByte, Identity;
    match h {
      case YkControl =>
        PortsCoils(d, env, data[5], data[6] != 0);
        ReadsCoils(SetPorts(d, env, data[5], data[6] != 0), env);
      case YkQueryState => ReadsCoils(d, env);
      case YkReportState => ReadsCoils(d, env);
      case AvcQueryState => ReadsCoils(d, env);
      case AvcProductionQuery => ReadsCoils(d, env);
      case YkModifyAddr => ModifyCoils(d, env, Addr, Wide8(data[5]));
      case ColdModifyAddr => ModifyCoils(d, env, Addr, Wide8(data[5]));
      case YkModifySn => AdoptCoils(d, env, SnAt(data, 6), YK_LOCK);
      case AvcModifySn => AdoptCoils(d, env, SnAt(data, 6), AVC_SWITCH);
      case AvcControlCommand => SwitchCoils(d, env, data[5] == 0x10);
      case AvcControlRequest =>
        RelayCoils(d, env, data[6] == 0x10);
        SwitchCoils(SetRelay(d, env, data[6] == 0x10), env, true);
      case AvcModifyDevice =>
        ModifyCoils(d, env, DeviceType, Wide8(data[1]));
        ModifyCoils(Modify(d, env, DeviceType, Wide8(data[1])).0, env, Addr, Wide8(data[2]));
      case ColdModifyTimeout =>
        ModifyCoils(d, env, TimeoutExec, Wide8(data[5]));
        ModifyCoils(Modify(d, env, TimeoutExec, Wide8(data[5])).0, env, TimeoutCmd, Wide8(data[6]));
      case _ =>
    }
  }

  lemma AdoptCoils(d: Device, env: Environment, sn: bv32, wanted: bv8)
    requires Leveled(d)
    ensures CoilsKept(d, AdoptSn(d, env, sn, wanted).0)
  {
    hide Levels, BothTicks, Modify, LockType;
    ModifyCoils(d, env, Sn, sn);
    ModifyCoils(Modify(d, env, Sn, sn).0, env, DeviceType, Wide8(wanted));
  }

  lemma SwitchCoils(d: Device, env: Environment, closed: bool)
    requires Leveled(d) && !d.pins.relayClose && !d.pins.relayOpen
    ensures CoilsKept(d, RelayState(SetRelay(d, env, closed), env).0)
  {
    hide Levels, BothTicks, SetRelay, RelayState;
    RelayCoils(d, env, closed);
    ReadsCoils(SetRelay(d, env, closed), env);
  }

  /** This input makes the device take a 0x02 command that names K0. */
  ghost predicate CommandsK0(d: Device, env: Environment, input: Input, open: bool)
    requires ValidInput(input)
  {
    && input.Message? && Takes(d, env, input.msg, YkControl)
    && var data := Received(env, d.history, input.msg);
       PortBit(data[5], 0) && (data[6] != 0) == open
  }

  /** After a reset both coils are off. */
  ghost predicate CoilsOffAtReset(env: Environment) {
    forall h :: !env.powerUp(h).relayClose && !env.powerUp(h).relayOpen
  }

  lemma BootCoils(d: Device, env: Environment)
    requires CoilsOffAtReset(env)
    ensures var e := Boot(d, env);
            Resting(e) && !e.pins.relayClose && BothTicks(e.history) == BothTicks(d.history)
  {
    hide TableFor, LockType, FilterFor;
  }

  /** What one input does to the coils: e is the device after it. */
  ghost predicate CoilStep(d: Device, env: Environment, input: Input, e: Device)
    requires ValidInput(input)
  {
    && Resting(e)
    && (e.pins.relayClose <==> !Resets(d, env, input) && (d.pins.relayClose || CommandsK0(d, env, input, false)))
    && BothTicks(e.history) == BothTicks(d.history)
         + if CommandsK0(d, env, input, true) && d.pins.relayClose then 10 else 0
  }

  lemma TakenCoils(d: Device, env: Environment, msg: CanMsg, h: Handler)
    requires msg.Valid() && Resting(d) && Takes(d, env, msg, h)
    ensures var (e, action) := React(d, env, h, Received(env, d.history, msg));
            && Resting(e) && (action.Restart? <==> Resets(d, env, Message(msg)))
            && CoilsAfter(d, e, CommandsK0(d, env, Message(msg), false), CommandsK0(d, env, Message(msg), true))
  {
    hide Takes, React, PortBit, Filter.Passes, Received, Leveled, BothTicks, Presents;
    var data := Received(env, d.history, msg);
    KnownCommand(d, env, msg, h);
    OnlyHandler(d, env, msg, h);
    ReactCoils(d, env, h, data);
    ActionOf(d, env, h, data);
    ClockEffect(d, env, h, data);
  }

  lemma HandleCoils(d: Device, env: Environment, msg: CanMsg, h: Handler)
    requires msg.Valid() && Resting(d) && CoilsOffAtReset(env) && Takes(d, env, msg, h)
    ensures CoilStep(d, env, Message(msg), Handle(d, env, h, Received(env, d.history, msg)))
  {
    hide Takes, React, Received, Levels, BothTicks, CommandsK0, Resets, Perform;
    TakenCoils(d, env, msg, h);
    if CommandsK0(d, env, Message(msg), false) {
      K0NoReset(d, env, Message(msg), false);
    }
    var data := Received(env, d.history, msg);
    PayloadSize(d, env, h, data);
    var (e, action) := React(d, env, h, data);
    PerformCoils(e, env, action);
  }

  lemma PerformCoils(d: Device, env: Environment, action: Action)
    requires Resting(d) && CoilsOffAtReset(env) && (action.Reply? ==> |action.payload| <= 5)
    ensures var e := Perform(d, env, action);
            && Resting(e) && BothTicks(e.history) == BothTicks(d.history)
            && e.pins.relayClose == (d.pins.relayClose && !action.Restart?)
  {
    hide Pack, Make, Boot, Levels, BothTicks;
    match action {
      case Silent =>
      case Reply(code, payload) => LogKeeps(d, Sent(Pack(Make(NO_HEADER, code, payload))));
      case Restart => BootCoils(d, env);
    }
  }

  lemma StepCoils(d: Device, env: Environment, input: Input)
    requires ValidInput(input) && Resting(d) && CoilsOffAtReset(env)
    ensures CoilStep(d, env, input, Step(d, env, input))
  {
    hide Takes, Handle, PortBit, Received, Levels, BothTicks, Pack, Make, Boot, LockType, Filter.Passes;
    match input {
      case PowerCycle => BootCoils(d, env);
      case Button =>
        var (e, contact) := ReadContact(d, env);
        LogKeeps(d, ContactRead(contact));
        LogKeeps(e, Sent(Pack(Make(NO_HEADER, 0x32, [e.store.addr, if contact then 0x01 else 0x10]))));
      case Message(msg) =>
        if !d.filter.Passes(msg) || d.table.NoTable? {
          NothingTaken(d, env, msg);
          LogKeeps(d, Fault);
        } else if Chosen(d, env, msg).Some? {
          HandleCoils(d, env, msg, Chosen(d, env, msg).value);
        }
    }
  }

  /** The k-th input of a run commands K0. */
  ghost predicate K0At(d: Device, env: Environment, inputs: seq<Input>, k: nat, open: bool)
    requires ValidInputs(inputs) && k < |inputs|
  {
    CommandsK0(Run(d, env, inputs[..k]), env, inputs[k], open)
  }

  /** Among the first k inputs K0 was commanded to close, and no reset followed. */
  ghost predicate ClosedBefore(d: Device, env: Environment, inputs: seq<Input>, k: nat)
    requires ValidInputs(inputs) && k <= |inputs|
  {
    exists i :: 0 <= i < k && K0At(d, env, inputs, i, false) && NoResetAfter(d, env, inputs, i, k)
  }

  ghost predicate NoResetAfter(d: Device, env: Environment, inputs: seq<Input>, i: nat, k: nat)
    requires ValidInputs(inputs) && k <= |inputs|
  {
    forall j :: i < j < k ==> !Resets(Run(d, env, inputs[..j]), env, inputs[j])
  }

  /** How many of the first k inputs opened K0 after an input that closed it and no reset in between. */
  ghost function Clashes(d: Device, env: Environment, inputs: seq<Input>, k: nat): nat
    requires ValidInputs(inputs) && k <= |inputs|
  {
    if k == 0 then 0
    else Clashes(d, env, inputs, k - 1)
         + if K0At(d, env, inputs, k - 1, true) && ClosedBefore(d, env, inputs, k - 1) then 1 else 0
  }

  lemma ClosedStep(d: Device, env: Environment, inputs: seq<Input>, k: nat)
    requires ValidInputs(inputs) && k < |inputs|
    ensures ClosedBefore(d, env, inputs, k + 1)
       <==> K0At(d, env, inputs, k, false)
            || (ClosedBefore(d, env, inputs, k) && !Resets(Run(d, env, inputs[..k]), env, inputs[k]))
  {
    hide K0At, Resets, Run;
    if ClosedBefore(d, env, inputs, k) && !Resets(Run(d, env, inputs[..k]), env, inputs[k]) {
      var i :| 0 <= i < k && K0At(d, env, inputs, i, false) && NoResetAfter(d, env, inputs, i, k);
      assert NoResetAfter(d, env, inputs, i, k + 1);
    }
    if K0At(d, env, inputs, k, false) {
      assert NoResetAfter(d, env, inputs, k, k + 1);
    }
    if ClosedBefore(d, env, inputs, k + 1) && !K0At(d, env, inputs, k, false) {
      var i :| 0 <= i < k + 1 && K0At(d, env, inputs, i, false) && NoResetAfter(d, env, inputs, i, k + 1);
      assert NoResetAfter(d, env, inputs, i, k);
    }
  }

  /** A command to K0 is not a reset. */
  lemma K0NoReset(d: Device, env: Environment, input: Input, open: bool)
    requires ValidInput(input) && CommandsK0(d, env, input, open)
    ensures !Resets(d, env, input)
  {
    if Takes(d, env, input.msg, YkModifyAddr) {
      OneHandler(d, env, input.msg, YkControl, YkModifyAddr);
    }
  }

  /** Over every run from power-up: the closing coil is driven exactly while K0 was commanded to close since
      the last reset, and both coils have been driven together for 10 ticks per clash. */
  lemma {:induction false} CoilsOverRun(store: Info, env: Environment, inputs: seq<Input>, k: nat)
    requires ValidInputs(inputs) && k <= |inputs| && CoilsOffAtReset(env)
    ensures var d := PowerUp(store, env);
            var e := Run(d, env, inputs[..k]);
            && Resting(e)
            && (e.pins.relayClose <==> ClosedBefore(d, env, inputs, k))
            && BothTicks(e.history) == 10 * Clashes(d, env, inputs, k)
  {
    hide Step, CommandsK0, Resets, Levels, BothTicks, NoResetAfter, Boot;
    var d := PowerUp(store, env);
    if k == 0 {
      PowerUpCoils(store, env);
    } else {
      var before := Run(d, env, inputs[..k - 1]);
      CoilsOverRun(store, env, inputs, k - 1);
      assert inputs[..k][..k - 1] == inputs[..k - 1];
      assert Run(d, env, inputs[..k]) == Step(before, env, inputs[k - 1]);
      StepCoils(before, env, inputs[k - 1]);
      ClosedStep(d, env, inputs, k - 1);
      if CommandsK0(before, env, inputs[k - 1], false) {
        K0NoReset(before, env, inputs[k - 1], false);
      }
    }
  }

  lemma PowerUpCoils(store: Info, env: Environment)
    requires CoilsOffAtReset(env)
    ensures var d := PowerUp(store, env);
            Resting(d) && !d.pins.relayClose && BothTicks(d.history) == 0
  {
    var off := Pins(false, false, false, false, false, false);
    BootCoils(Device(store, NoTable, FilterFor(0, false), Flags(false, false, false), off, Start), env);
    hide Boot;
  }

  /** Both coils are driven together at some time exactly if some 0x02 that opens K0 follows one that
      closes it with no reset in between. */
  lemma CoilsClashIff(store: Info, env: Environment, inputs: seq<Input>)
    requires ValidInputs(inputs) && CoilsOffAtReset(env)
    ensures var d := PowerUp(store, env);
            BothTicks(Run(d, env, inputs).history) > 0
            <==> exists i, k :: 0 <= i < k < |inputs| && K0At(d, env, inputs, i, false)
                                && NoResetAfter(d, env, inputs, i, k) && K0At(d, env, inputs, k, true)
  {
    var d := PowerUp(store, env);
    CoilsOverRun(store, env, inputs, |inputs|);
    assert inputs[..|inputs|] == inputs;
    ClashExists(d, env, inputs, |inputs|);
    hide Run, K0At, NoResetAfter, PowerUp;
    if i, k :| 0 <= i < k < |inputs| && K0At(d, env, inputs, i, false)
               && NoResetAfter(d, env, inputs, i, k) && K0At(d, env, inputs, k, true) {
      assert ClosedBefore(d, env, inputs, k);
    }
  }

  lemma {:induction false} ClashExists(d: Device, env: Environment, inputs: seq<Input>, n: nat)
    requires ValidInputs(inputs) && n <= |inputs|
    ensures Clashes(d, env, inputs, n) > 0
       <==> exists k :: 0 <= k < n && K0At(d, env, inputs, k, true) && ClosedBefore(d, env, inputs, k)
  {
    hide K0At, ClosedBefore;
    if n > 0 {
      ClashExists(d, env, inputs, n - 1);
    }
  }
}
