/** What the relay operations keep and what they promise, for every sensor and every EEPROM behaviour. */
module RelayProofs {
  import opened Config
  import opened Device
  import opened Relay

  /** Everything but the relay coils, the flags and the history. */
  predicate SameApart(d: Device, e: Device) {
    && e.store == d.store && e.table == d.table && e.filter == d.filter
    && e.pins.ct1 == d.pins.ct1 && e.pins.k1 == d.pins.k1 && e.pins.ct2 == d.pins.ct2 && e.pins.k2 == d.pins.k2
  }

  /** The events added between two moments took at most n ticks, sent nothing and wrote nothing. */
  predicate Quiet(h: History, g: History, n: nat) {
    Ticks(g) <= Ticks(h) + n && Outbox(g) == Outbox(h) && Writes(g) == Writes(h)
  }

  lemma SetK0Keeps(d: Device, env: Environment, open: bool)
    ensures var e := SetK0(d, env, open);
            SameApart(d, e) && e.flags == d.flags && Quiet(d.history, e.history, 60)
  {
    hide Await;
  }

  /** Port control touches only the pins of the addressed ports, within 60 ticks. */
  lemma SetPortsEffect(d: Device, env: Environment, port: bv8, open: bool)
    ensures var e := SetPorts(d, env, port, open);
            && e.store == d.store && e.table == d.table && e.filter == d.filter && e.flags == d.flags
            && Quiet(d.history, e.history, 60)
            && e.pins.ct1 == (if PortBit(port, 1) then open else d.pins.ct1)
            && e.pins.k1 == (if PortBit(port, 1) then !open else d.pins.k1)
            && e.pins.ct2 == (if PortBit(port, 2) then open else d.pins.ct2)
            && e.pins.k2 == (if PortBit(port, 2) then !open else d.pins.k2)
  {
    hide PortBit, SetK0;
    SetK0Keeps(d, env, open);
  }

  /** Saving writes at most once, and only a record that differs in the relay state alone. */
  lemma SaveRelayEffect(d: Device, env: Environment, closed: bool)
    ensures var (e, saved) := SaveRelay(d, env, closed);
            && e == d.(store := e.store, history := e.history)
            && (e.store == d.store || e.store == Put(d.store, SwitchState, Wide8(StateByte(closed))))
            && (saved ==> e.store.switchState == StateByte(closed))
            && (d.store.switchState == StateByte(closed) ==> e == d && saved)
            && (d.store.switchState != StateByte(closed) ==> Writes(e.history) == Writes(d.history) + 1)
            && ((forall g :: env.written(g)) ==> e.store.switchState == StateByte(closed))
            && Ticks(e.history) <= Ticks(d.history) + 10
            && Outbox(e.history) == Outbox(d.history) && LastContact(e.history) == LastContact(d.history)
  {
    StoredState(d.store, closed);
    hide AwaitVisible, Put, Wide8;
  }

  lemma StoredState(store: Info, closed: bool)
    ensures Put(store, SwitchState, Wide8(StateByte(closed))) == store.(switchState := StateByte(closed))
  {
  }

  lemma PulseKeeps(d: Device, coil: Pin)
    requires coil.RelayClose? || coil.RelayOpen?
    ensures var e := Pulse(d, coil);
            && SameApart(d, e) && e.flags == d.flags
            && Ticks(e.history) == Ticks(d.history) + 10
            && Outbox(e.history) == Outbox(d.history) && Writes(e.history) == Writes(d.history)
  {
  }

  /** One relay command: at most 20 ticks; the relay state is written once if it differs, whether or not
      the contact moved; an action is never reported without success, and success is exactly that the last
      contact reading hit the target. */
  lemma SetRelayEffect(d: Device, env: Environment, closed: bool)
    ensures var e := SetRelay(d, env, closed);
            && SameApart(d.(store := e.store), e)
            && (e.store == d.store || e.store == Put(d.store, SwitchState, Wide8(StateByte(closed))))
            && Ticks(e.history) <= Ticks(d.history) + 20
            && Outbox(e.history) == Outbox(d.history)
            && Writes(e.history) == Writes(d.history) + (if d.store.switchState == StateByte(closed) then 0 else 1)
            && (d.store.switchState == StateByte(closed) ==> e.flags.isSave)
            && ((forall g :: env.written(g)) ==> e.store.switchState == StateByte(closed))
            && (e.flags.isAction ==> e.flags.isSet)
            && (e.flags.isSet <==> LastContact(e.history) == Some(closed))
            && (e.flags.isSave ==> e.store.switchState == StateByte(closed))
  {
    hide SaveRelay, Pulse, Put, Wide8, StateByte;
    var (d1, first) := ReadContact(d, env);
    if first == closed {
      SaveRelayEffect(d1, env, closed);
    } else {
      var coil := if closed then RelayClose else RelayOpen;
      PulseKeeps(d1, coil);
      var (d2, second) := ReadContact(Pulse(d1, coil), env);
      SaveRelayEffect(d2, env, closed);
    }
  }

  /** The six result bytes a relay command can leave. */
  predicate ResultCode(b: bv8) {
    b == 0x00 || b == 0x02 || b == 0x10 || b == 0x11 || b == 0x12 || b == 0x13
  }

  /** The result byte takes one of six values exactly when no action is reported without success. */
  lemma ResultByteRange(flags: Flags)
    ensures ResultCode(ResultByte(flags)) <==> (flags.isAction ==> flags.isSet)
  {
  }

  // --------------------------------------------------------- delayed commits

  /** Ticks since the last record write. */
  function SinceWrite(h: History): nat {
    match h
    case Start => 0
    case Then(past, EepromWrite(_, _)) => 0
    case Then(past, Delay(t)) => SinceWrite(past) + t
    case Then(past, _) => SinceWrite(past)
  }

  /** The EEPROM makes each record visible a fixed number of ticks after the write. */
  ghost predicate Commits(env: Environment, latency: nat) {
    forall h :: env.visible(h) <==> SinceWrite(h) >= latency
  }

  lemma {:induction false} AwaitCommit(d: Device, env: Environment, n: nat, latency: nat)
    requires Commits(env, latency)
    ensures var (e, ok) := AwaitVisible(d, env, n);
            var missing := if SinceWrite(d.history) < latency then latency - SinceWrite(d.history) else 0;
            && (ok <==> missing < n)
            && Ticks(e.history) == Ticks(d.history) + (if missing < n then missing else n)
    decreases n
  {
    if n > 0 && !env.visible(d.history) {
      AwaitCommit(d.Wait(1), env, n - 1, latency);
    }
  }

  /** With delayed commits, a save that has to write succeeds exactly when the record becomes visible
      within nine ticks, and waits no longer than that record takes or ten ticks. */
  lemma SaveSucceedsIff(d: Device, env: Environment, closed: bool, latency: nat)
    requires Commits(env, latency)
    requires d.store.switchState != StateByte(closed) && env.written(d.history)
    ensures var (e, saved) := SaveRelay(d, env, closed);
            && (saved <==> latency <= 9)
            && Ticks(e.history) == Ticks(d.history) + (if latency <= 9 then latency else 10)
            && Writes(e.history) == Writes(d.history) + 1
            && e.store == d.store.(switchState := StateByte(closed))
  {
    StoredState(d.store, closed);
    hide AwaitVisible, Put, Wide8, StateByte;
    var (e, done) := Modify(d, env, SwitchState, Wide8(StateByte(closed)));
    AwaitCommit(e, env, SAVE_POLLS, latency);
  }

  /** A whole relay command then reports saved exactly in that case, whether or not the contact moved. */
  lemma RelaySavedIff(d: Device, env: Environment, closed: bool, latency: nat)
    requires Commits(env, latency) && forall g :: env.written(g)
    requires d.store.switchState != StateByte(closed)
    ensures SetRelay(d, env, closed).flags.isSave <==> latency <= 9
  {
    hide SaveRelay, Pulse, StateByte;
    var (d1, first) := ReadContact(d, env);
    if first == closed {
      assert env.written(d1.history);
      SaveSucceedsIff(d1, env, closed, latency);
    } else {
      var coil := if closed then RelayClose else RelayOpen;
      PulseKeeps(d1, coil);
      var d2 := ReadContact(Pulse(d1, coil), env).0;
      assert env.written(d2.history);
      SaveSucceedsIff(d2, env, closed, latency);
    }
  }

  // -------------------------------------------------------------- ideal relay

  /** The contact of a relay that follows its coils at once and keeps its position otherwise. */
  predicate IdealContact(h: History, initial: bool) {
    match h
    case Start => initial
    case Then(past, PinWrite(RelayClose, true)) => true
    case Then(past, PinWrite(RelayOpen, true)) => false
    case Then(past, _) => IdealContact(past, initial)
  }

  /** An ideal relay on a board whose EEPROM accepts and shows every record. */
  ghost predicate Ideal(env: Environment, initial: bool) {
    forall h :: env.contact(h) == IdealContact(h, initial) && env.written(h) && env.visible(h)
  }

  lemma PulseMoves(d: Device, closed: bool, initial: bool)
    ensures IdealContact(Pulse(d, if closed then RelayClose else RelayOpen).history, initial) == closed
  {
    var coil := if closed then RelayClose else RelayOpen;
    var on := d.Drive(coil, true);
    assert IdealContact(on.history, initial) == closed;
    assert IdealContact(on.Wait(PULSE).history, initial) == closed;
  }

  lemma IdealSave(d: Device, env: Environment, closed: bool, initial: bool)
    requires Ideal(env, initial)
    ensures var (e, saved) := SaveRelay(d, env, closed);
            && saved && e.store == d.store.(switchState := StateByte(closed))
            && IdealContact(e.history, initial) == IdealContact(d.history, initial)
            && Ticks(e.history) == Ticks(d.history)
  {
    StoredState(d.store, closed);
    hide Put, Wide8, StateByte;
    assert env.written(d.history);
    var e := Modify(d, env, SwitchState, Wide8(StateByte(closed))).0;
    assert env.visible(e.history);
  }

  /** With an ideal relay the contact and the EEPROM end at the requested state, the command reports
      set and saved, and it reports an action exactly when the contact had to move, which takes 10 ticks. */
  lemma IdealSetRelay(d: Device, env: Environment, closed: bool, initial: bool)
    requires Ideal(env, initial)
    ensures var e := SetRelay(d, env, closed);
            && IdealContact(e.history, initial) == closed
            && e.store == d.store.(switchState := StateByte(closed))
            && e.flags == Flags(IdealContact(d.history, initial) != closed, true, true)
            && Ticks(e.history) == Ticks(d.history) + (if IdealContact(d.history, initial) == closed then 0 else 10)
  {
    hide SaveRelay, Pulse, StateByte;
    var (d1, first) := ReadContact(d, env);
    assert first == IdealContact(d.history, initial);
    if first == closed {
      IdealSave(d1, env, closed, initial);
    } else {
      var coil := if closed then RelayClose else RelayOpen;
      PulseMoves(d1, closed, initial);
      PulseKeeps(d1, coil);
      var (d2, second) := ReadContact(Pulse(d1, coil), env);
      assert second == IdealContact(Pulse(d1, coil).history, initial);
      IdealSave(d2, env, closed, initial);
    }
  }

  lemma {:induction false} AwaitInVain(d: Device, env: Environment, wanted: bool, n: nat, initial: bool)
    requires Ideal(env, initial) && IdealContact(d.history, initial) != wanted
    ensures var e := Await(d, env, wanted, n);
            Ticks(e.history) == Ticks(d.history) + n && IdealContact(e.history, initial) != wanted
    decreases n
  {
    if n > 0 {
      var (e, level) := ReadContact(d, env);
      assert level == IdealContact(d.history, initial);
      assert IdealContact(e.history, initial) == IdealContact(d.history, initial);
      AwaitInVain(e.Wait(1), env, wanted, n - 1, initial);
    }
  }

  /** The port commands take an open K0 for a contact reading of 1, the relay macros for a reading of 0.
      With an ideal relay every K0 command therefore polls to the end: 60 ticks to open, 50 to close, and
      the contact ends at the opposite of the reading that was waited for. */
  lemma IdealK0(d: Device, env: Environment, open: bool, initial: bool)
    requires Ideal(env, initial)
    ensures var e := SetK0(d, env, open);
            && IdealContact(e.history, initial) == !open
            && Ticks(e.history) == Ticks(d.history) + (if open then 60 else 50)
  {
    hide Await;
    if open {
      PulseMoves(d, false, initial);
      PulseKeeps(d, RelayOpen);
      AwaitInVain(Pulse(d, RelayOpen), env, true, CONTACT_POLLS, initial);
    } else {
      var on := d.Drive(RelayClose, true);
      assert IdealContact(on.history, initial);
      AwaitInVain(on.Drive(RelayOpen, false), env, false, CONTACT_POLLS, initial);
    }
  }

  // -------------------------------------------------------------- state bytes

  /** The port-state byte: bits 5 and 6 are the K1 and K2 control pins, bit 4 the contact and bit 0 the
      input just read; the other bits are clear. */
  lemma PortStateBits(d: Device, env: Environment)
    ensures var (e, state) := PortState(d, env);
            && PortBit(state, 6) == d.pins.ct2 && PortBit(state, 5) == d.pins.ct1
            && Some(PortBit(state, 4)) == LastContact(e.history)
            && e.history.Then? && e.history.event == InputRead(PortBit(state, 0))
            && state & 0x8e == 0
  {
  }

  /** The lamp byte shows an open contact in bit 0; a closed contact shares bit 4 with the second lamp,
      so bit 4 tells nothing about the contact while that lamp is lit. */
  lemma LampStateBits(d: Device, env: Environment)
    ensures var (e, state) := LampState(d, env);
            && PortBit(state, 5) == d.pins.ct1
            && Some(!PortBit(state, 0)) == LastContact(e.history)
            && (PortBit(state, 4) <==> d.pins.k1 || LastContact(e.history) == Some(true))
            && state & 0xce == 0
  {
  }
}
