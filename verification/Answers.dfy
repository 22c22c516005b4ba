/** What the device says on the bus: every answer byte by byte, from the record, the pins and the readings,
    for every sensor and every EEPROM behaviour. */
module Answers {
  import opened Config
  import opened Frame
  import opened CanChannel
  import opened Filter
  import opened Device
  import opened Relay
  import opened RelayProofs
  import opened Protocol
  import opened Commands
  import opened CommandProofs
  import opened Machine
  import opened Runs

  // ------------------------------------------------------------- state answers

  /** Four bytes that carry the address and, most significant byte first, the serial number of a record. */
  predicate Identifies(payload: seq<bv8>, store: Info) {
    && |payload| >= 4 && payload[0] == store.addr
    && BigEndian(payload[1], payload[2], payload[3]) == Get(store, Sn)
  }

  lemma IdentityBytes(store: Info)
    ensures Identifies(Identity(store), store)
  {
    hide BigEndian, SnByte, Wide24;
    SnJoined(store.sn);
  }

  lemma SnJoined(w: bv24)
    ensures var sn := Wide24(w);
            BigEndian(SnByte(sn, 16), SnByte(sn, 8), SnByte(sn, 0)) == sn
  {
  }

  /** A state byte that shows the control pins of K1 and K2 and, as the last two events of the history, a
      reading of the contact and one of the input. */
  predicate ShowsPorts(state: bv8, pins: Pins, h: History) {
    && PortBit(state, 6) == pins.ct2 && PortBit(state, 5) == pins.ct1 && state & 0x8e == 0
    && h.Then? && h.event == InputRead(PortBit(state, 0))
    && h.past.Then? && h.past.event == ContactRead(PortBit(state, 4))
  }

  lemma PortStateShown(d: Device, env: Environment)
    ensures var (e, state) := PortState(d, env);
            ShowsPorts(state, d.pins, e.history) && e == d.(history := e.history) && e.history.past.past == d.history
  {
    PortStateBits(d, env);
    hide PortBit, BitAt;
  }

  /** 0x01 and 0x04 read the contact and the input, change nothing, and answer address, serial number and
      the state of the ports. */
  lemma StateAnswer(d: Device, env: Environment, h: Handler, data: Buffer)
    requires h.YkQueryState? || h.YkReportState?
    ensures var (e, action) := React(d, env, h, data);
            && action.Reply? && action.code == (if h.YkQueryState? then 0x01 else 0x04) && |action.payload| == 5
            && Identifies(action.payload, d.store)
            && ShowsPorts(action.payload[4], d.pins, e.history)
            && e == d.(history := e.history) && e.history.past.past == d.history
  {
    hide PortState, Identity, ShowsPorts, BigEndian, Get;
    PortStateShown(d, env);
    IdentityBytes(d.store);
  }

  /** 0x02 answers the address and the ports as the command left them: bits 5 and 6 are the commanded
      levels of the named ports, and contact and input are read after everything the command did. */
  lemma PortsAnswer(d: Device, env: Environment, data: Buffer)
    ensures var (e, action) := React(d, env, YkControl, data);
            && action.Reply? && action.code == 0x02 && |action.payload| == 2
            && action.payload[0] == d.store.addr
            && ShowsPorts(action.payload[1], e.pins, e.history)
            && PortBit(action.payload[1], 5) == (if PortBit(data[5], 1) then data[6] != 0 else d.pins.ct1)
            && PortBit(action.payload[1], 6) == (if PortBit(data[5], 2) then data[6] != 0 else d.pins.ct2)
  {
    hide PortState, SetPorts, PortBit;
    SetPortsEffect(d, env, data[5], data[6] != 0);
    PortStateShown(SetPorts(d, env, data[5], data[6] != 0), env);
  }

  /** With an ideal relay the contact bit of that answer is the commanded state of K0, where a closed
      contact reads 1, or the old contact; and the command takes exactly 60, 50 or no ticks. */
  lemma IdealPortsAnswer(d: Device, env: Environment, data: Buffer, initial: bool)
    requires Ideal(env, initial)
    ensures var (e, action) := React(d, env, YkControl, data);
            && action.Reply? && |action.payload| == 2
            && PortBit(action.payload[1], 4)
               == (if PortBit(data[5], 0) then data[6] == 0 else IdealContact(d.history, initial))
            && Ticks(e.history) == Ticks(d.history)
                 + (if !PortBit(data[5], 0) then 0 else if data[6] != 0 then 60 else 50)
  {
    var e := SetPorts(d, env, data[5], data[6] != 0);
    IdealPorts(d, env, data[5], data[6] != 0, initial);
    hide PortState, SetPorts, PortBit;
    PortStateShown(e, env);
    assert env.contact(e.history) == IdealContact(e.history, initial);
    PortStateContact(e, env);
  }

  lemma PortStateContact(d: Device, env: Environment)
    ensures var (e, state) := PortState(d, env);
            PortBit(state, 4) == env.contact(d.history) && Ticks(e.history) == Ticks(d.history)
  {
    PortStateBits(d, env);
    hide PortBit, BitAt;
  }

  lemma IdealPorts(d: Device, env: Environment, port: bv8, open: bool, initial: bool)
    requires Ideal(env, initial)
    ensures var e := SetPorts(d, env, port, open);
            && IdealContact(e.history, initial) == (if PortBit(port, 0) then !open else IdealContact(d.history, initial))
            && Ticks(e.history) == Ticks(d.history) + (if !PortBit(port, 0) then 0 else if open then 60 else 50)
  {
    hide SetK0, PortBit;
    if PortBit(port, 0) {
      IdealK0(d, env, open, initial);
    }
    var d0 := if PortBit(port, 0) then SetK0(d, env, open) else d;
    hide IdealContact;
    OtherPins(d0, Ct1, K1, open, initial);
    var d1 := if PortBit(port, 1) then SetK1(d0, open) else d0;
    OtherPins(d1, Ct2, K2, open, initial);
  }

  lemma OtherPins(d: Device, control: Pin, k: Pin, open: bool, initial: bool)
    requires control.Ct1? || control.Ct2?
    requires k.K1? || k.K2?
    ensures var e := d.Drive(control, open).Drive(k, !open);
            IdealContact(e.history, initial) == IdealContact(d.history, initial) && Ticks(e.history) == Ticks(d.history)
  {
    assert IdealContact(d.Drive(control, open).history, initial) == IdealContact(d.history, initial);
  }

  /** The pin writes of a history, oldest first. */
  function Drives(h: History): seq<(Pin, bool)> {
    match h
    case Start => []
    case Then(past, PinWrite(pin, level)) => Drives(past) + [(pin, level)]
    case Then(past, _) => Drives(past)
  }

  /** The pin writes of a port command: K0, then K1, then K2, control pin before K pin. */
  function PortDrives(port: bv8, open: bool): seq<(Pin, bool)> {
    (if !PortBit(port, 0) then []
     else if open then [(RelayOpen, true), (RelayOpen, false)]
     else [(RelayClose, true), (RelayOpen, false)])
    + (if PortBit(port, 1) then [(Ct1, open), (K1, !open)] else [])
    + (if PortBit(port, 2) then [(Ct2, open), (K2, !open)] else [])
  }

  lemma {:induction false} AwaitDrives(d: Device, env: Environment, wanted: bool, n: nat)
    ensures Drives(Await(d, env, wanted, n).history) == Drives(d.history)
    decreases n
  {
    if n > 0 {
      AwaitDrives(ReadContact(d, env).0.Wait(1), env, wanted, n - 1);
    }
  }

  lemma K0Drives(d: Device, env: Environment, open: bool)
    ensures Drives(SetK0(d, env, open).history)
         == Drives(d.history) + (if open then [(RelayOpen, true), (RelayOpen, false)]
                                 else [(RelayClose, true), (RelayOpen, false)])
  {
    hide Await;
    if open {
      var on := d.Drive(RelayOpen, true);
      assert Drives(on.Wait(PULSE).history) == Drives(d.history) + [(RelayOpen, true)];
      AwaitDrives(Pulse(d, RelayOpen), env, true, CONTACT_POLLS);
    } else {
      AwaitDrives(d.Drive(RelayClose, true).Drive(RelayOpen, false), env, false, CONTACT_POLLS);
    }
  }

  lemma PairDrives(d: Device, control: Pin, k: Pin, open: bool)
    ensures Drives(d.Drive(control, open).Drive(k, !open).history)
         == Drives(d.history) + [(control, open), (k, !open)]
  {
  }

  lemma SetPortsDrives(d: Device, env: Environment, port: bv8, open: bool)
    ensures Drives(SetPorts(d, env, port, open).history) == Drives(d.history) + PortDrives(port, open)
  {
    hide SetK0, PortBit, Drives, Device.Drive;
    K0Drives(d, env, open);
    var d0 := if PortBit(port, 0) then SetK0(d, env, open) else d;
    PairDrives(d0, Ct1, K1, open);
    var d1 := if PortBit(port, 1) then SetK1(d0, open) else d0;
    PairDrives(d1, Ct2, K2, open);
  }

  /** 0x02 writes exactly these pins in this order, whatever the contact reads. */
  lemma PortWrites(d: Device, env: Environment, data: Buffer)
    ensures Drives(React(d, env, YkControl, data).0.history)
         == Drives(d.history) + PortDrives(data[5], data[6] != 0)
  {
    var e := SetPorts(d, env, data[5], data[6] != 0);
    SetPortsDrives(d, env, data[5], data[6] != 0);
    PortStateShown(e, env);
    hide SetPorts, PortState, PortBit, PortDrives;
  }

  // ------------------------------------------------------------- relay answers

  /** The pin writes and contact readings of a history, oldest first. */
  function Trace(h: History): seq<Event> {
    match h
    case Start => []
    case Then(past, event) => if event.PinWrite? || event.ContactRead? then Trace(past) + [event] else Trace(past)
  }

  /** One attempt to move the contact: a reading that already fits, or one that does not, a pulse on the
      coil for the target, and a second reading. */
  predicate Attempt(t: seq<Event>, closed: bool) {
    var coil := if closed then RelayClose else RelayOpen;
    || t == [ContactRead(closed)]
    || (|t| == 4 && t[3].ContactRead?
        && t[..3] == [ContactRead(!closed), PinWrite(coil, true), PinWrite(coil, false)])
  }

  /** What an attempt reports: success if its last reading fits, an action if it also had to pulse. */
  predicate Reports(t: seq<Event>, closed: bool, flags: Flags) {
    && |t| > 0
    && (flags.isSet <==> t[|t| - 1] == ContactRead(closed))
    && (flags.isAction <==> flags.isSet && |t| == 4)
  }

  lemma {:induction false} AwaitVisibleTrace(d: Device, env: Environment, n: nat)
    ensures Trace(AwaitVisible(d, env, n).0.history) == Trace(d.history)
    decreases n
  {
    if n > 0 {
      AwaitVisibleTrace(d.Wait(1), env, n - 1);
    }
  }

  lemma SaveTrace(d: Device, env: Environment, closed: bool)
    ensures Trace(SaveRelay(d, env, closed).0.history) == Trace(d.history)
  {
    hide AwaitVisible, Put;
    AwaitVisibleTrace(Modify(d, env, SwitchState, Wide8(StateByte(closed))).0, env, SAVE_POLLS);
  }

  lemma RelayTrace(d: Device, env: Environment, closed: bool) returns (t: seq<Event>)
    ensures var e := SetRelay(d, env, closed);
            Attempt(t, closed) && Trace(e.history) == Trace(d.history) + t && Reports(t, closed, e.flags)
  {
    hide SaveRelay;
    var (d1, first) := ReadContact(d, env);
    if first == closed {
      SaveTrace(d1, env, closed);
      t := [ContactRead(closed)];
    } else {
      var coil := if closed then RelayClose else RelayOpen;
      var on := d1.Drive(coil, true);
      assert Trace(on.Wait(PULSE).history) == Trace(d1.history) + [PinWrite(coil, true)];
      var (d2, second) := ReadContact(Pulse(d1, coil), env);
      assert Trace(Pulse(d1, coil).history) == Trace(d1.history) + [PinWrite(coil, true), PinWrite(coil, false)];
      SaveTrace(d2, env, closed);
      t := [ContactRead(first), PinWrite(coil, true), PinWrite(coil, false), ContactRead(second)];
      assert t[..3] == [ContactRead(!closed), PinWrite(coil, true), PinWrite(coil, false)];
    }
  }

  /** The answer to 0x35 and 0x32: group byte, address, the contact as it is read last of all, and the
      three flags. */
  predicate ShowsRelay(action: Action, store: Info, flags: Flags, contact: bool) {
    && action.Reply? && action.code == 0x35 && |action.payload| == 4
    && action.payload[0] == 0x03 && action.payload[1] == store.addr
    && action.payload[2] == (if contact then 0x10 else 0x01)
    && PortBit(action.payload[3], 4) == flags.isSet && PortBit(action.payload[3], 1) == flags.isSave
    && PortBit(action.payload[3], 0) == flags.isAction && action.payload[3] & 0xec == 0
  }

  lemma ResultBits(flags: Flags)
    ensures var b := ResultByte(flags);
            && PortBit(b, 4) == flags.isSet && PortBit(b, 1) == flags.isSave && PortBit(b, 0) == flags.isAction
            && b & 0xec == 0
  {
  }

  lemma RelayReported(d: Device, env: Environment) returns (contact: bool)
    ensures var (e, action) := ReportRelay(d, env);
            && e == d.(history := e.history) && Trace(e.history) == Trace(d.history) + [ContactRead(contact)]
            && ShowsRelay(action, d.store, d.flags, contact)
  {
    hide PortBit, ResultByte;
    ResultBits(d.flags);
    contact := env.contact(d.history);
  }

  /** 0x35 for every sensor: one attempt at the requested state, one more reading, and an answer that
      shows that reading and the flags of the attempt. */
  lemma CommandTrace(d: Device, env: Environment, data: Buffer) returns (t: seq<Event>, contact: bool)
    requires data[5] == 0x10 || data[5] == 0x01
    ensures var (e, action) := React(d, env, AvcControlCommand, data);
            && Attempt(t, data[5] == 0x10) && Reports(t, data[5] == 0x10, e.flags)
            && Trace(e.history) == Trace(d.history) + t + [ContactRead(contact)]
            && ShowsRelay(action, d.store, e.flags, contact)
  {
    var closed := data[5] == 0x10;
    hide SetRelay, ReportRelay, Attempt, Reports, Trace, PortBit, Put, Wide8;
    t := RelayTrace(d, env, closed);
    SetRelayStore(d, env, closed);
    contact := RelayReported(SetRelay(d, env, closed), env);
  }

  /** 0x32 for every sensor: an attempt at the agreed state, then an attempt to engage, one more reading,
      and an answer that shows that reading and the flags of the second attempt. */
  lemma AgreementTrace(d: Device, env: Environment, data: Buffer)
    returns (s: seq<Event>, t: seq<Event>, contact: bool)
    requires data[5] == 0x10 && (data[6] == 0x10 || data[6] == 0x01)
    ensures var (e, action) := React(d, env, AvcControlRequest, data);
            && Attempt(s, data[6] == 0x10) && Attempt(t, true) && Reports(t, true, e.flags)
            && Trace(e.history) == Trace(d.history) + s + t + [ContactRead(contact)]
            && ShowsRelay(action, d.store, e.flags, contact)
  {
    var closed := data[6] == 0x10;
    hide SetRelay, ReportRelay, Attempt, Reports, Trace, PortBit, Put, Wide8;
    s := RelayTrace(d, env, closed);
    var first := SetRelay(d, env, closed);
    SetRelayStore(d, env, closed);
    t := RelayTrace(first, env, true);
    SetRelayStore(first, env, true);
    contact := RelayReported(SetRelay(first, env, true), env);
  }

  /** 0x31 and 0x3F read the contact, change nothing, and answer address, serial number and the lamps. */
  lemma LampAnswer(d: Device, env: Environment, h: Handler, data: Buffer) returns (contact: bool)
    requires h.AvcQueryState? || h.AvcProductionQuery?
    ensures var (e, action) := React(d, env, h, data);
            && action.Reply? && action.code == 0x31 && |action.payload| == 5
            && Identifies(action.payload, d.store)
            && PortBit(action.payload[4], 5) == d.pins.ct1
            && PortBit(action.payload[4], 4) == (d.pins.k1 || contact)
            && PortBit(action.payload[4], 0) == !contact
            && action.payload[4] & 0xce == 0
            && e == d.(history := Then(d.history, ContactRead(contact)))
  {
    LampStateBits(d, env);
    IdentityBytes(d.store);
    contact := env.contact(d.history);
    hide Identity, BigEndian, Get, PortBit, BitAt, ContactByte;
  }

  // ------------------------------------------------- commands that write the record

  /** The record after a write of this one that may have failed. */
  function After(kept: Info, record: Info, done: bool): Info {
    if done then record else kept
  }

  /** The history after a write. */
  function Wrote(h: History, record: Info, env: Environment): History {
    Then(h, EepromWrite(record, env.written(h)))
  }

  /** 0x07 and 0x37 for every EEPROM: the serial number is written, and unless the device already has the
      type the command stands for, the type is written too, whatever became of the first write. */
  lemma SnCommandExact(d: Device, env: Environment, h: Handler, data: Buffer)
    requires IsSnCommand(h)
    ensures var e := React(d, env, h, data).0;
            var wanted: bv8 := if h.YkModifySn? then 0 else 4;
            var numbered := d.store.(sn := Low24(SnAt(data, 6)));
            var first := After(d.store, numbered, env.written(d.history));
            var g := Wrote(d.history, numbered, env);
            if LockType(d.store) == wanted then e == d.(store := first, history := g)
            else e == d.(store := After(first, first.(devType := wanted), env.written(g)),
                         history := Wrote(g, first.(devType := wanted), env))
  {
    var wanted: bv8 := if h.YkModifySn? then 0 else 4;
    PutSn(d.store, SnAt(data, 6));
    var first := Modify(d, env, Sn, SnAt(data, 6)).0;
    PutFields(first.store, DeviceType, wanted);
    hide Put, SnAt, SnBytes, Wide8, Low24, Get;
  }

  /** 0x07 answers a zero byte and the serial number it finds in the record: the requested one if that
      was stored, otherwise the old one. */
  lemma YkSnAnswer(d: Device, env: Environment, data: Buffer)
    ensures React(d, env, YkModifySn, data).1
         == Reply(0x07, [0] + if env.written(d.history) then data[6..9] else SnBytes(Get(d.store, Sn)))
  {
    hide SnAt, SnBytes, Get, Put, AdoptSn;
    SnSurvives(data, 6, d.store);
    AdoptSnEffect(d, env, SnAt(data, 6), YK_LOCK);
  }

  /** 0x2A for every EEPROM: both timeouts are written, the second on top of whatever became of the first,
      and the answer shows both before and after. */
  lemma TimeoutsExact(d: Device, env: Environment, data: Buffer)
    ensures var (e, action) := React(d, env, ColdModifyTimeout, data);
            var exec := d.store.(timeoutExec := data[5]);
            var first := After(d.store, exec, env.written(d.history));
            var g := Wrote(d.history, exec, env);
            var both := first.(timeoutCmd := data[6]);
            && e == d.(store := After(first, both, env.written(g)), history := Wrote(g, both, env))
            && action == Reply(0x2a, [d.store.addr, d.store.timeoutExec, d.store.timeoutCmd,
                                      e.store.timeoutExec, e.store.timeoutCmd])
  {
    PutFields(d.store, TimeoutExec, data[5]);
    PutFields(Modify(d, env, TimeoutExec, Wide8(data[5])).0.store, TimeoutCmd, data[6]);
    hide Put, Wide8;
  }

  lemma DeviceWrites(d: Device, env: Environment, data: Buffer)
    ensures var (e, done) := ChangeDevice(d, env, data);
            var typed := d.store.(devType := data[1]);
            var g := Wrote(d.history, typed, env);
            var moved := typed.(addr := data[2]);
            && done == (Presents(AvcModifyDevice, data, d.store) && env.written(d.history) && env.written(g))
            && e == (if !Presents(AvcModifyDevice, data, d.store) then d
                     else if !env.written(d.history) then d.(history := g)
                     else d.(store := After(typed, moved, env.written(g)), history := Wrote(g, moved, env)))
  {
    PutFields(d.store, DeviceType, data[1]);
    PutFields(d.store.(devType := data[1]), Addr, data[2]);
    hide Put, Wide8, Get, SnAt;
  }

  /** 0x33 for every EEPROM: nothing happens without the serial number; with it the type is written, and
      the address only if that worked. The answer shows type and address as stored afterwards, and
      success exactly if both writes were made. */
  lemma DeviceAnswer(d: Device, env: Environment, data: Buffer)
    ensures var (e, action) := React(d, env, AvcModifyDevice, data);
            var typed := d.store.(devType := data[1]);
            var g := Wrote(d.history, typed, env);
            var moved := typed.(addr := data[2]);
            var presents := Presents(AvcModifyDevice, data, d.store);
            && e == (if !presents then d
                     else if !env.written(d.history) then d.(history := g)
                     else d.(store := After(typed, moved, env.written(g)), history := Wrote(g, moved, env)))
            && action == Reply(0x33, [if e.store.devType <= 5 then e.store.devType else 0, e.store.addr,
                                      if presents && env.written(d.history) && env.written(g) then 0x10 else 0x01])
  {
    hide ChangeDevice, After, Wrote, Presents;
    DeviceWrites(d, env, data);
  }

  /** 0x03 for every EEPROM: without the serial number nothing happens; with it the address is written and
      the device resets, even if the write failed. */
  lemma YkAddrExact(d: Device, env: Environment, data: Buffer)
    ensures var (e, action) := React(d, env, YkModifyAddr, data);
            var moved := d.store.(addr := data[5]);
            if Presents(YkModifyAddr, data, d.store)
            then e == d.(store := After(d.store, moved, env.written(d.history)), history := Wrote(d.history, moved, env))
                 && action.Restart?
            else e == d && action.Silent?
  {
    PutFields(d.store, Addr, data[5]);
    hide Put, Wide8, Get, SnAt;
  }

  /** 0x23 for every EEPROM: the address is written only with the serial number; the answer shows the
      stored address, the three serial number bytes of the request, and a zero byte. */
  lemma ColdAddrAnswer(d: Device, env: Environment, data: Buffer)
    ensures var (e, action) := React(d, env, ColdModifyAddr, data);
            var moved := d.store.(addr := data[5]);
            && e == (if Presents(ColdModifyAddr, data, d.store)
                     then d.(store := After(d.store, moved, env.written(d.history)),
                             history := Wrote(d.history, moved, env))
                     else d)
            && action == Reply(0x23, [e.store.addr] + data[6..9] + [0])
  {
    PutFields(d.store, Addr, data[5]);
    SnSurvives(data, 6, d.store);
    hide Put, Wide8, Get, SnAt, SnBytes;
  }

  /** The remaining cold-lock commands change nothing; 0x21 and 0x25 answer address, serial number and a
      zero state byte. */
  lemma ColdAnswer(d: Device, env: Environment, h: Handler, data: Buffer)
    requires h.ColdQueryAll? || h.ColdControl? || h.ColdModifySn? || h.ColdProductionQuery?
    ensures var (e, action) := React(d, env, h, data);
            && e == d && (action.Silent? <==> h.ColdModifySn? || h.ColdProductionQuery?)
            && (!action.Silent? ==>
                  && action.Reply? && action.code == (if h.ColdQueryAll? then 0x21 else 0x25)
                  && |action.payload| == 5 && Identifies(action.payload, d.store) && action.payload[4] == 0)
  {
    IdentityBytes(d.store);
    hide Identity, BigEndian, Get;
  }

  // ------------------------------------------------------------------- on the bus

  /** The bytes a receiver gets of a message: no header, then code and payload. */
  predicate Carries(msg: CanMsg, code: bv8, payload: seq<bv8>)
    requires msg.Short()
  {
    var bytes := Bytes(msg);
    && |bytes| == |payload| + 6 && bytes[..3] == NO_HEADER && bytes[4] == code
    && bytes[5..5 + |payload|] == payload
  }

  lemma PackedCarries(code: bv8, payload: seq<bv8>)
    requires |payload| <= 5
    ensures Carries(Pack(Make(NO_HEADER, code, payload)), code, payload)
  {
    MakeWellFormed(NO_HEADER, code, payload);
    RoundTrip(Make(NO_HEADER, code, payload));
    hide Pack, Make, Bytes, WellFormed;
  }

  /** What a handler answers is what goes on the bus: one message with its code and payload. */
  lemma AnswerOnBus(d: Device, env: Environment, msg: CanMsg, h: Handler) returns (m: CanMsg)
    requires msg.Valid() && Takes(d, env, msg, h)
    requires Answered(h, Received(env, d.history, msg))
    ensures m.Short() && Outbox(Receive(d, env, msg).history) == Outbox(d.history) + [m]
    ensures var action := React(d, env, h, Received(env, d.history, msg)).1;
            action.Reply? && Carries(m, action.code, action.payload)
  {
    var data := Received(env, d.history, msg);
    KnownCommand(d, env, msg, h);
    hide Takes, Handle, React, Pack, Make, Answered, Received, Carries, Filter.Passes;
    TakenIsHandled(d, env, msg, h);
    HandleEffect(d, env, h, data);
    ClockEffect(d, env, h, data);
    ActionOf(d, env, h, data);
    var action := React(d, env, h, data).1;
    PackedCarries(action.code, action.payload);
    m := Pack(Make(NO_HEADER, action.code, action.payload));
  }

  predicate TellsPorts(h: Handler) {
    h.YkQueryState? || h.YkControl? || h.YkReportState?
  }

  /** A message that starts with the address and ends, before its checksum, with the levels of two pins. */
  predicate Tells(m: CanMsg, addr: bv8, ct1: bool, ct2: bool)
    requires m.Short()
  {
    var bytes := Bytes(m);
    && 8 <= |bytes| && bytes[5] == addr
    && PortBit(bytes[|bytes| - 2], 5) == ct1 && PortBit(bytes[|bytes| - 2], 6) == ct2
  }

  lemma PayloadTells(d: Device, env: Environment, h: Handler, data: Buffer)
    requires TellsPorts(h)
    ensures var (e, action) := React(d, env, h, data);
            && action.Reply? && |action.payload| >= 2 && action.payload[0] == d.store.addr
            && PortBit(action.payload[|action.payload| - 1], 5) == e.pins.ct1
            && PortBit(action.payload[|action.payload| - 1], 6) == e.pins.ct2
  {
    hide React, PortBit;
    if h.YkControl? {
      PortsAnswer(d, env, data);
    } else {
      StateAnswer(d, env, h, data);
    }
  }

  lemma StepTells(d: Device, env: Environment, msg: CanMsg, h: Handler) returns (m: CanMsg)
    requires msg.Valid() && Takes(d, env, msg, h) && TellsPorts(h)
    ensures var e := Receive(d, env, msg);
            && m.Short() && Outbox(e.history) == Outbox(d.history) + [m]
            && Tells(m, d.store.addr, e.pins.ct1, e.pins.ct2)
  {
    var data := Received(env, d.history, msg);
    KnownCommand(d, env, msg, h);
    hide Takes, Handle, React, PortBit, Carries, Tells, Received, Receive, Filter.Passes;
    m := AnswerOnBus(d, env, msg, h);
    PayloadTells(d, env, h, data);
    var (e, action) := React(d, env, h, data);
    TellsCarried(m, action.code, action.payload, e.pins.ct1, e.pins.ct2);
    TakenIsHandled(d, env, msg, h);
    HandleEffect(d, env, h, data);
  }

  lemma TellsCarried(m: CanMsg, code: bv8, payload: seq<bv8>, ct1: bool, ct2: bool)
    requires m.Short() && Carries(m, code, payload) && |payload| >= 2
    requires PortBit(payload[|payload| - 1], 5) == ct1 && PortBit(payload[|payload| - 1], 6) == ct2
    ensures Tells(m, payload[0], ct1, ct2)
  {
    hide PortBit, Bytes;
    var bytes := Bytes(m);
    assert bytes[5] == bytes[5..5 + |payload|][0];
    assert bytes[|bytes| - 2] == bytes[5..5 + |payload|][|payload| - 1];
  }

  /** Over every run: the answer to 0x01, 0x02 or 0x04 carries the device's address, and its state byte
      shows for K1 and K2 the last 0x02 command since the last reset that named the port, the one being
      answered included. */
  lemma AnswersFollowCommands(d: Device, env: Environment, inputs: seq<Input>, msg: CanMsg, h: Handler)
    returns (m: CanMsg, ct1: bool, ct2: bool)
    requires ValidInputs(inputs) && msg.Valid() && Takes(Run(d, env, inputs), env, msg, h) && TellsPorts(h)
    ensures var before, all := Run(d, env, inputs), inputs + [Message(msg)];
            && m.Short() && Outbox(Run(d, env, all).history) == Outbox(before.history) + [m]
            && Tells(m, before.store.addr, ct1, ct2)
            && (Observed(1, d, env, all).Commanded? ==> ct1 == Observed(1, d, env, all).open)
            && (Observed(2, d, env, all).Commanded? ==> ct2 == Observed(2, d, env, all).open)
  {
    var before, all := Run(d, env, inputs), inputs + [Message(msg)];
    assert all[..|inputs|] == inputs && Run(d, env, all) == Receive(before, env, msg);
    hide Run, Receive, Takes, Tells, Observed;
    PortsFollowCommands(d, env, all);
    m := StepTells(before, env, msg, h);
    ghost var pins := Run(d, env, all).pins;
    ct1, ct2 := pins.ct1, pins.ct2;
  }

  // -------------------------------------------------------------------- the button

  /** A pressed button makes an AVC switch read its contact and send one 0x32 request with its address and
      the opposite of that reading: 0x01 to disengage a closed contact, 0x10 to engage an open one. On any
      other device it does nothing. */
  lemma ButtonRequest(d: Device, env: Environment) returns (m: CanMsg)
    ensures var e := Step(d, env, Button);
            && (d.store.devType != 4 ==> e == d)
            && (d.store.devType == 4 ==>
                  && e == d.(history := e.history) && Ticks(e.history) == Ticks(d.history)
                  && m.Short() && Outbox(e.history) == Outbox(d.history) + [m]
                  && LastContact(e.history).Some?
                  && Carries(m, 0x32, [d.store.addr, if LastContact(e.history).value then 0x01 else 0x10]))
  {
    var payload: seq<bv8> := [d.store.addr, if env.contact(d.history) then 0x01 else 0x10];
    hide Pack, Make, Carries;
    m := Pack(Make(NO_HEADER, 0x32, payload));
    PackedCarries(0x32, payload);
    assert Press(d, env) == if LockType(d.store) != AVC_SWITCH then d
                            else ReadContact(d, env).0.Transmit(0x32, payload);
  }

  /** With an ideal relay the request asks for the opposite of the real contact. If the answer agrees to
      it, the device ends at the requested state exactly if the contact was open before: the button can
      engage the relay but never disengage it. */
  lemma AgreedPress(d: Device, env: Environment, data: Buffer, initial: bool) returns (m: CanMsg)
    requires Ideal(env, initial) && d.store.devType == 4
    requires data[5] == 0x10 && data[6] == (if IdealContact(d.history, initial) then 0x01 else 0x10)
    ensures var pressed := Step(d, env, Button);
            var e := React(pressed, env, AvcControlRequest, data).0;
            && m.Short() && Outbox(pressed.history) == Outbox(d.history) + [m]
            && Carries(m, 0x32, [d.store.addr, data[6]])
            && IdealContact(e.history, initial)
            && (IdealContact(e.history, initial) != IdealContact(d.history, initial) <==> data[6] == 0x10)
  {
    var pressed := Step(d, env, Button);
    m := ButtonRequest(d, env);
    assert env.contact(d.history) == IdealContact(d.history, initial);
    assert LastContact(pressed.history) == Some(env.contact(d.history));
    hide Step, Carries, React;
    IdealAgreement(pressed, env, data, initial);
  }
}
