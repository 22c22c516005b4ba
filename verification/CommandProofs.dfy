/** The effect of each command on the stored record, the pins, the flags and the clock. */
module CommandProofs {
  import opened Config
  import opened Device
  import opened Relay
  import opened RelayProofs
  import opened Protocol
  import opened Commands

  /** The serial number a command must present to be obeyed, as its handler decodes it. */
  function PresentedSn(h: Handler, data: Buffer): Option<bv32> {
    match h
    case YkModifyAddr => Some(SnAt(data, 6))
    case ColdModifyAddr => Some(SnAt(data, 6))
    case AvcModifyDevice => Some(SnAt(data, 3))
    case _ => None
  }

  predicate Presents(h: Handler, data: Buffer, store: Info) {
    PresentedSn(h, data) == Some(Get(store, Sn))
  }

  /** The address such a command asks for. */
  function RequestedAddr(h: Handler, data: Buffer): bv8 {
    if h.AvcModifyDevice? then data[2] else data[5]
  }

  lemma PutFields(store: Info, key: Key, b: bv8)
    requires key != Sn
    ensures Put(store, key, Wide8(b)) ==
            match key
            case DeviceType => store.(devType := b)
            case Addr => store.(addr := b)
            case Sn => store
            case TimeoutExec => store.(timeoutExec := b)
            case TimeoutCmd => store.(timeoutCmd := b)
            case SwitchState => store.(switchState := b)
  {
  }

  lemma PutSn(store: Info, sn: bv32)
    ensures Put(store, Sn, sn) == store.(sn := Low24(sn))
  {
  }

  /** Which commands may change which part of the record, and under which condition. */
  predicate StoreRule(h: Handler, data: Buffer, before: Info, after: Info) {
    && (after.addr != before.addr ==> Presents(h, data, before) && after.addr == RequestedAddr(h, data))
    && (after.sn != before.sn ==> (h.YkModifySn? || h.AvcModifySn?) && after.sn == Low24(SnAt(data, 6)))
    && (after.devType != before.devType ==>
          || (h.YkModifySn? && after.devType == YK_LOCK)
          || (h.AvcModifySn? && after.devType == AVC_SWITCH)
          || (h.AvcModifyDevice? && Presents(h, data, before) && after.devType == data[1]))
    && (after.timeoutExec != before.timeoutExec ==> h.ColdModifyTimeout? && after.timeoutExec == data[5])
    && (after.timeoutCmd != before.timeoutCmd ==> h.ColdModifyTimeout? && after.timeoutCmd == data[6])
    && (after.switchState != before.switchState ==>
          || (h.AvcControlCommand? && after.switchState == StateByte(data[5] == 0x10))
          || (h.AvcControlRequest? && data[5] == 0x10
              && (after.switchState == StateByte(data[6] == 0x10) || after.switchState == StateByte(true))))
  }

  lemma SnStore(d: Device, env: Environment, h: Handler, data: Buffer)
    requires h.YkModifySn? || h.AvcModifySn?
    ensures StoreRule(h, data, d.store, React(d, env, h, data).0.store)
  {
    hide Put, Wide8, Low24, SnAt, SnBytes, Get;
    PutSn(d.store, SnAt(data, 6));
    PutFields(d.store, DeviceType, YK_LOCK);
    PutFields(d.store, DeviceType, AVC_SWITCH);
    PutFields(d.store.(sn := Low24(SnAt(data, 6))), DeviceType, YK_LOCK);
    PutFields(d.store.(sn := Low24(SnAt(data, 6))), DeviceType, AVC_SWITCH);
  }

  lemma AddrStore(d: Device, env: Environment, h: Handler, data: Buffer)
    requires h.YkModifyAddr? || h.ColdModifyAddr? || h.AvcModifyDevice?
    ensures StoreRule(h, data, d.store, React(d, env, h, data).0.store)
  {
    hide Put, Wide8, SnAt, SnBytes, Get;
    PutFields(d.store, Addr, data[5]);
    PutFields(d.store, DeviceType, data[1]);
    PutFields(d.store.(devType := data[1]), Addr, data[2]);
  }

  lemma TimeoutStore(d: Device, env: Environment, data: Buffer)
    ensures StoreRule(ColdModifyTimeout, data, d.store, React(d, env, ColdModifyTimeout, data).0.store)
  {
  }

  lemma RelayStore(d: Device, env: Environment, h: Handler, data: Buffer)
    requires h.AvcControlCommand? || h.AvcControlRequest?
    ensures StoreRule(h, data, d.store, React(d, env, h, data).0.store)
  {
    hide Put, Wide8, SnAt, SnBytes, Get, SetRelay, ReportRelay;
    var closed := if h.AvcControlCommand? then data[5] == 0x10 else data[6] == 0x10;
    var e := SetRelay(d, env, closed);
    SetRelayStore(d, env, closed);
    SetRelayStore(e, env, true);
    ReportRelayKeeps(e, env);
    ReportRelayKeeps(SetRelay(e, env, true), env);
  }

  lemma SetRelayStore(d: Device, env: Environment, closed: bool)
    ensures SetRelay(d, env, closed).store == d.store.(switchState := SetRelay(d, env, closed).store.switchState)
    ensures SetRelay(d, env, closed).store.switchState == d.store.switchState
         || SetRelay(d, env, closed).store.switchState == StateByte(closed)
  {
    hide Put, Wide8, SetRelay;
    SetRelayEffect(d, env, closed);
    PutFields(d.store, SwitchState, StateByte(closed));
  }

  /** Every command obeys the rule. */
  lemma StoreEffect(d: Device, env: Environment, h: Handler, data: Buffer)
    ensures StoreRule(h, data, d.store, React(d, env, h, data).0.store)
  {
    match h {
      case YkModifySn => SnStore(d, env, h, data);
      case AvcModifySn => SnStore(d, env, h, data);
      case YkModifyAddr => AddrStore(d, env, h, data);
      case ColdModifyAddr => AddrStore(d, env, h, data);
      case AvcModifyDevice => AddrStore(d, env, h, data);
      case ColdModifyTimeout => TimeoutStore(d, env, data);
      case AvcControlCommand => RelayStore(d, env, h, data);
      case AvcControlRequest => RelayStore(d, env, h, data);
      case YkControl => SetPortsEffect(d, env, data[5], data[6] != 0); hide SetPorts;
      case _ =>
    }
  }

  // ---------------------------------------------------------------- the clock

  /** The longest a command may take, in ticks, whatever the sensor and the EEPROM do. */
  function TickBound(h: Handler): nat {
    match h
    case YkControl => 60
    case AvcControlCommand => 20
    case AvcControlRequest => 40
    case _ => 0
  }

  /** Two relay commands in a row, the second one to engage. */
  lemma TwoCommands(d: Device, env: Environment, closed: bool)
    ensures var e := SetRelay(SetRelay(d, env, closed), env, true);
            && Ticks(e.history) <= Ticks(d.history) + 40 && Outbox(e.history) == Outbox(d.history)
            && SameApart(d.(store := e.store), e)
            && (e.flags.isAction ==> e.flags.isSet)
  {
    hide SetRelay, Put, Wide8;
    SetRelayEffect(d, env, closed);
    SetRelayEffect(SetRelay(d, env, closed), env, true);
  }

  predicate InBound(d: Device, e: Device, n: nat) {
    && Ticks(e.history) <= Ticks(d.history) + n && Outbox(e.history) == Outbox(d.history)
    && e.table == d.table && e.filter == d.filter
  }

  lemma ReportRelayKeeps(d: Device, env: Environment)
    ensures var e := ReportRelay(d, env).0;
            InBound(d, e, 0) && e.store == d.store && e.flags == d.flags && e.pins == d.pins
  {
  }

  lemma RelayClock(d: Device, env: Environment, h: Handler, data: Buffer)
    requires h.AvcControlCommand? || h.AvcControlRequest?
    ensures InBound(d, React(d, env, h, data).0, TickBound(h))
  {
    hide SetRelay, ReportRelay, Put, Wide8;
    var closed := if h.AvcControlCommand? then data[5] == 0x10 else data[6] == 0x10;
    var e := SetRelay(d, env, closed);
    SetRelayEffect(d, env, closed);
    TwoCommands(d, env, closed);
    ReportRelayKeeps(e, env);
    ReportRelayKeeps(SetRelay(e, env, true), env);
  }

  /** Until its final transmission or reset a command stays in its time bound, sends nothing and
      keeps the loaded table and the filter. */
  lemma ClockEffect(d: Device, env: Environment, h: Handler, data: Buffer)
    ensures InBound(d, React(d, env, h, data).0, TickBound(h))
  {
    if h.AvcControlCommand? || h.AvcControlRequest? {
      RelayClock(d, env, h, data);
      hide React;
    } else {
      if h.YkControl? {
        SetPortsEffect(d, env, data[5], data[6] != 0);
      }
      hide SetPorts, SetRelay, Put, Wide8, SnAt, SnBytes, Get, ResultByte, BitAt, LockType, OnRelay, OnAgreement;
    }
  }

  // ------------------------------------------------------------ flags and pins

  /** The result flags after a command: relay commands set them from the contact, others keep them. */
  lemma FlagsEffect(d: Device, env: Environment, h: Handler, data: Buffer)
    requires d.flags.isAction ==> d.flags.isSet
    ensures var e := React(d, env, h, data).0;
            && (e.flags.isAction ==> e.flags.isSet)
            && (!h.AvcControlCommand? && !h.AvcControlRequest? ==> e.flags == d.flags)
  {
    hide SetPorts, SetRelay, ReportRelay, Put, Wide8, SnAt, SnBytes, Get, ResultByte, BitAt, LockType;
    if h.YkControl? {
      SetPortsEffect(d, env, data[5], data[6] != 0);
    } else if h.AvcControlCommand? || h.AvcControlRequest? {
      var closed := if h.AvcControlCommand? then data[5] == 0x10 else data[6] == 0x10;
      var e := SetRelay(d, env, closed);
      SetRelayEffect(d, env, closed);
      TwoCommands(d, env, closed);
      ReportRelayKeeps(e, env);
      ReportRelayKeeps(SetRelay(e, env, true), env);
    }
  }

  /** Port pins move only for a 0x02 command that addresses the port. */
  lemma PinsEffect(d: Device, env: Environment, h: Handler, data: Buffer)
    ensures var e, open := React(d, env, h, data).0, data[6] != 0;
            && e.pins.ct1 == (if h.YkControl? && PortBit(data[5], 1) then open else d.pins.ct1)
            && e.pins.k1 == (if h.YkControl? && PortBit(data[5], 1) then !open else d.pins.k1)
            && e.pins.ct2 == (if h.YkControl? && PortBit(data[5], 2) then open else d.pins.ct2)
            && e.pins.k2 == (if h.YkControl? && PortBit(data[5], 2) then !open else d.pins.k2)
  {
    hide SetPorts, SetRelay, ReportRelay, Put, Wide8, SnAt, SnBytes, Get, ResultByte, BitAt, LockType, PortBit;
    if h.YkControl? {
      SetPortsEffect(d, env, data[5], data[6] != 0);
    } else if h.AvcControlCommand? || h.AvcControlRequest? {
      var closed := if h.AvcControlCommand? then data[5] == 0x10 else data[6] == 0x10;
      var e := SetRelay(d, env, closed);
      SetRelayEffect(d, env, closed);
      TwoCommands(d, env, closed);
      ReportRelayKeeps(e, env);
      ReportRelayKeeps(SetRelay(e, env, true), env);
    }
  }

  // ------------------------------------------------------------------ answers

  /** The code a command is answered with: 0x32 as 0x35, 0x3F as 0x31, every other one unchanged. */
  function ReplyCode(code: bv8): bv8 {
    if code == 0x32 then 0x35 else if code == 0x3f then 0x31 else code
  }

  /** Which requests are answered at all. */
  predicate Answered(h: Handler, data: Buffer) {
    match h
    case YkModifyAddr => false
    case ColdModifySn => false
    case ColdProductionQuery => false
    case AvcControlCommand => data[5] == 0x10 || data[5] == 0x01
    case AvcControlRequest => data[5] == 0x10 && (data[6] == 0x10 || data[6] == 0x01)
    case _ => true
  }

  lemma ActionOf(d: Device, env: Environment, h: Handler, data: Buffer)
    ensures var action := React(d, env, h, data).1;
            && (action.Reply? <==> Answered(h, data))
            && (action.Reply? ==> action.code == ReplyCode(CodeOf(h)))
            && (action.Restart? <==> h.YkModifyAddr? && Presents(h, data, d.store))
  {
  }

  // ------------------------------------------------- serial number round trip

  lemma ThreeBytes(b0: bv8, b1: bv8, b2: bv8)
    ensures SnBytes(Wide24(Low24(BigEndian(b0, b1, b2)))) == [b0, b1, b2]
    ensures Wide24(Low24(BigEndian(b0, b1, b2))) == BigEndian(b0, b1, b2)
  {
  }

  lemma SnSurvives(data: Buffer, i: nat, store: Info)
    requires i <= 13
    ensures Get(Put(store, Sn, SnAt(data, i)), Sn) == SnAt(data, i)
    ensures SnBytes(SnAt(data, i)) == data[i..i + 3]
  {
    hide Wide24, Low24, SnBytes, BigEndian;
    ThreeBytes(data[i], data[i + 1], data[i + 2]);
    assert data[i..i + 3] == [data[i], data[i + 1], data[i + 2]];
  }

  /** 0x37 carries the three requested bytes through decoding, the 24-bit field and back: a stored
      serial number is answered as requested with 0x10, a failed write with the old one and 0x01. */
  lemma SnRoundTrip(d: Device, env: Environment, data: Buffer)
    ensures var (e, action) := React(d, env, AvcModifySn, data);
            && action.Reply? && action.code == 0x37
            && action.payload == [d.store.addr]
                 + (if env.written(d.history) then data[6..9] + [0x10] else SnBytes(Get(d.store, Sn)) + [0x01])
            && Get(e.store, Sn) == (if env.written(d.history) then SnAt(data, 6) else Get(d.store, Sn))
  {
    hide SnAt, SnBytes, Get, Put, AdoptSn;
    SnSurvives(data, 6, d.store);
    AdoptSnEffect(d, env, SnAt(data, 6), AVC_SWITCH);
    var sn := if env.written(d.history) then data[6..9] else SnBytes(Get(d.store, Sn));
    assert Identity(AdoptSn(d, env, SnAt(data, 6), AVC_SWITCH).0.store) == [d.store.addr] + sn;
  }

  lemma AdoptSnEffect(d: Device, env: Environment, sn: bv32, wanted: bv8)
    ensures var (e, done) := AdoptSn(d, env, sn, wanted);
            && done == env.written(d.history) && e.store.addr == d.store.addr
            && Get(e.store, Sn) == (if done then Get(Put(d.store, Sn, sn), Sn) else Get(d.store, Sn))
  {
  }

  /** If the EEPROM accepts writes, 0x07 makes any device a YK lock and 0x37 any device an AVC switch. */
  lemma TypeAdopted(d: Device, env: Environment, h: Handler, data: Buffer)
    requires h.YkModifySn? || h.AvcModifySn?
    requires forall g :: env.written(g)
    ensures var e := React(d, env, h, data).0;
            && LockType(e.store) == (if h.YkModifySn? then YK_LOCK else AVC_SWITCH)
            && Get(e.store, Sn) == SnAt(data, 6)
  {
    hide SnAt, SnBytes, Wide24, Low24, Wide8, Put;
    SnSurvives(data, 6, d.store);
    PutSn(d.store, SnAt(data, 6));
    assert env.written(d.history);
    var e := Modify(d, env, Sn, SnAt(data, 6)).0;
    assert env.written(e.history);
    PutFields(e.store, DeviceType, YK_LOCK);
    PutFields(e.store, DeviceType, AVC_SWITCH);
  }

  // ------------------------------------------------------------- ideal relays

  lemma ContactReadKeeps(d: Device, env: Environment, initial: bool)
    ensures IdealContact(ReadContact(d, env).0.history, initial) == IdealContact(d.history, initial)
  {
  }

  /** 0x35 with an ideal relay: contact, EEPROM and answer all show the requested state. */
  lemma IdealCommand(d: Device, env: Environment, data: Buffer, initial: bool)
    requires Ideal(env, initial)
    requires data[5] == 0x10 || data[5] == 0x01
    ensures var (e, action) := React(d, env, AvcControlCommand, data);
            var closed := data[5] == 0x10;
            && IdealContact(e.history, initial) == closed
            && e.store == d.store.(switchState := StateByte(closed))
            && action == Reply(0x35, [0x03, d.store.addr, data[5],
                                      if IdealContact(d.history, initial) == closed then 0x12 else 0x13])
            && Ticks(e.history) == Ticks(d.history) + (if IdealContact(d.history, initial) == closed then 0 else 10)
  {
    var closed := data[5] == 0x10;
    IdealSetRelay(d, env, closed, initial);
    hide SetRelay, StateByte;
    ContactReadKeeps(SetRelay(d, env, closed), env, initial);
  }

  /** 0x32 with an ideal relay: an agreed request always ends engaged, so it ends at the requested
      state exactly when the request was to engage. A disengage request is carried out first: its 10 ticks
      are spent if the contact was closed, and the engage that follows always moves the contact. */
  lemma IdealAgreement(d: Device, env: Environment, data: Buffer, initial: bool)
    requires Ideal(env, initial)
    requires data[5] == 0x10 && (data[6] == 0x10 || data[6] == 0x01)
    ensures var (e, action) := React(d, env, AvcControlRequest, data);
            && IdealContact(e.history, initial)
            && e.store == d.store.(switchState := 1)
            && action == Reply(0x35, [0x03, d.store.addr, 0x10, if data[6] == 0x01 then 0x13 else 0x12])
            && Ticks(e.history) == Ticks(d.history)
                 + (if data[6] == 0x01 then 10 else 0)
                 + (if IdealContact(d.history, initial) == (data[6] == 0x10) then 0 else 10)
            && (IdealContact(e.history, initial) == (data[6] == 0x10) <==> data[6] == 0x10)
  {
    var first := SetRelay(d, env, data[6] == 0x10);
    IdealSetRelay(d, env, data[6] == 0x10, initial);
    IdealSetRelay(first, env, true, initial);
    hide SetRelay;
    ContactReadKeeps(SetRelay(first, env, true), env, initial);
  }

  // ----------------------------------------------------------- address changes

  /** With a working EEPROM an address command that presents the stored serial number is obeyed. */
  lemma AddressObeyed(d: Device, env: Environment, h: Handler, data: Buffer)
    requires h.YkModifyAddr? || h.ColdModifyAddr? || h.AvcModifyDevice?
    requires Presents(h, data, d.store)
    requires forall g :: env.written(g)
    ensures React(d, env, h, data).0.store.addr == RequestedAddr(h, data)
    ensures h.AvcModifyDevice? ==> React(d, env, h, data).0.store.devType == data[1]
  {
  }

  /** The serial numbers 0x33 can ever match: its handler reads the length byte and the function code
      itself as the two high bytes. */
  predicate Overlaps(sn: bv32) {
    (sn >> 16) <= 11 && (sn >> 8) & 0xff == 0x33
  }

  /** An accepted 0x33 frame can present the stored serial number only if that number has the overlap. */
  lemma DeviceChangeNeedsOverlap(data: Buffer, len: nat, ownId: bv8, table: Table, store: Info)
    requires len <= 16
    requires Accepts(data, len, ownId, table, AvcModifyDevice)
    requires Presents(AvcModifyDevice, data, store)
    ensures Overlaps(Get(store, Sn))
  {
  }

  /** 0x2A answers with both timeouts before and after; with a working EEPROM the latter are those asked for. */
  lemma TimeoutsObeyed(d: Device, env: Environment, data: Buffer)
    requires forall g :: env.written(g)
    ensures var (e, action) := React(d, env, ColdModifyTimeout, data);
            && e.store == d.store.(timeoutExec := data[5], timeoutCmd := data[6])
            && action == Reply(0x2a, [d.store.addr, d.store.timeoutExec, d.store.timeoutCmd, data[5], data[6]])
  {
  }
}
