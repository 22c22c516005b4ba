/** Relay and port control, and the state bytes (applications/operation.c, applications/hw_define.h). */
module Relay {
  import opened Config
  import opened Device

  const PULSE := 10
  const CONTACT_POLLS := 50
  const SAVE_POLLS := 10

  /** AVC_RELAY_CONTROL: a pulse on one coil. */
  function Pulse(d: Device, coil: Pin): Device {
    d.Drive(coil, true).Wait(PULSE).Drive(coil, false)
  }

  /** Polls the contact until it reads the wanted level, at most n times, one tick apart. */
  function Await(d: Device, env: Environment, wanted: bool, n: nat): (e: Device)
    ensures e == d.(history := e.history)
    ensures Ticks(e.history) <= Ticks(d.history) + n
    ensures Outbox(e.history) == Outbox(d.history) && Writes(e.history) == Writes(d.history)
    decreases n
  {
    if n == 0 then d
    else
      var (e, level) := ReadContact(d, env);
      if level == wanted then e else Await(e.Wait(1), env, wanted, n - 1)
  }

  predicate PortBit(port: bv8, k: nat)
    requires k < 8
  {
    port & (1 << k) != 0
  }

  function SetK0(d: Device, env: Environment, open: bool): Device {
    var e := if open then Pulse(d, RelayOpen) else d.Drive(RelayClose, true).Drive(RelayOpen, false);
    Await(e, env, open, CONTACT_POLLS)
  }

  function SetK1(d: Device, open: bool): Device {
    d.Drive(Ct1, open).Drive(K1, !open)
  }

  function SetK2(d: Device, open: bool): Device {
    d.Drive(Ct2, open).Drive(K2, !open)
  }

  /** control(CONTROL_YK_OPEN / CONTROL_YK_CLOSE); K3 has no pins. */
  function SetPorts(d: Device, env: Environment, port: bv8, open: bool): Device {
    var d0 := if PortBit(port, 0) then SetK0(d, env, open) else d;
    var d1 := if PortBit(port, 1) then SetK1(d0, open) else d0;
    if PortBit(port, 2) then SetK2(d1, open) else d1
  }

  /** Polls the EEPROM until the record just written is visible, at most n times, one tick apart. */
  function AwaitVisible(d: Device, env: Environment, n: nat): (r: (Device, bool))
    ensures r.0 == d.(history := r.0.history)
    ensures r.1 ==> env.visible(r.0.history)
    ensures Ticks(r.0.history) <= Ticks(d.history) + n
    ensures Outbox(r.0.history) == Outbox(d.history) && Writes(r.0.history) == Writes(d.history)
    ensures LastContact(r.0.history) == LastContact(d.history)
    decreases n
  {
    if n == 0 then (d, false)
    else if env.visible(d.history) then (d, true)
    else AwaitVisible(d.Wait(1), env, n - 1)
  }

  function StateByte(closed: bool): bv8 {
    if closed then 1 else 0
  }

  /** avc_relay_state_save */
  function SaveRelay(d: Device, env: Environment, closed: bool): (Device, bool) {
    if d.store.switchState == StateByte(closed) then (d, true)
    else
      var (e, done) := Modify(d, env, SwitchState, Wide8(StateByte(closed)));
      if !done then (e, false) else AwaitVisible(e, env, SAVE_POLLS)
  }

  /** control(CONTROL_AVC_SWITCH_ENGAGE / CONTROL_AVC_SWITCH_DISENGAGE) */
  function SetRelay(d: Device, env: Environment, closed: bool): Device {
    var (d1, first) := ReadContact(d, env);
    if first == closed then
      var (d2, saved) := SaveRelay(d1, env, closed);
      d2.(flags := Flags(false, true, saved))
    else
      var (d2, second) := ReadContact(Pulse(d1, if closed then RelayClose else RelayOpen), env);
      var (d3, saved) := SaveRelay(d2, env, closed);
      d3.(flags := Flags(second == closed, second == closed, saved))
  }

  // -------------------------------------------------------------- state bytes

  function BitAt(level: bool, k: nat): bv8
    requires k < 8
  {
    if level then 1 << k else 0
  }

  function ContactByte(level: bool): bv8 {
    if level then 0x10 else 0x01
  }

  /** query_state(YK_PORT_STATE) */
  function PortState(d: Device, env: Environment): (Device, bv8) {
    var (e, contact) := ReadContact(d, env);
    var (f, input) := ReadInput(e, env);
    (f, BitAt(d.pins.ct2, 6) | BitAt(d.pins.ct1, 5) | BitAt(contact, 4) | BitAt(input, 0))
  }

  /** query_state(AVC_SWITCH_LED_RELAY_STATE); the lamp pins are the CT1 and K1 pins. */
  function LampState(d: Device, env: Environment): (Device, bv8) {
    var (e, contact) := ReadContact(d, env);
    (e, BitAt(d.pins.ct1, 5) | BitAt(d.pins.k1, 4) | ContactByte(contact))
  }

  /** query_state(AVC_SWITCH_RELAY_STATE) */
  function RelayState(d: Device, env: Environment): (Device, bv8) {
    var (e, contact) := ReadContact(d, env);
    (e, ContactByte(contact))
  }

  /** query_state(AVC_SWITCH_OPERATION_RESULT) */
  function ResultByte(flags: Flags): bv8 {
    BitAt(flags.isSet, 4) | BitAt(flags.isSave, 1) | BitAt(flags.isAction, 0)
  }
}
