/** What each command does to the device and what it answers (applications/handler.c). */
module Commands {
  import opened Config
  import opened Device
  import opened Relay
  import opened Protocol

  /** How a handler ends: without an answer, with one frame, or in a CPU reset. */
  datatype Action =
    | Silent
    | Reply(code: bv8, payload: seq<bv8>)
    | Restart

  function BigEndian(b0: bv8, b1: bv8, b2: bv8): bv32 {
    ((b0 as bv32) << 16) + ((b1 as bv32) << 8) + (b2 as bv32)
  }

  /** A serial number in three bytes, most significant first. */
  function SnAt(data: Buffer, i: nat): bv32
    requires i <= 13
  {
    BigEndian(data[i], data[i + 1], data[i + 2])
  }

  function SnByte(sn: bv32, shift: nat): bv8
    requires shift <= 16
  {
    ((sn >> shift) & 0xff) as bv8
  }

  function SnBytes(sn: bv32): (bytes: seq<bv8>)
    ensures |bytes| == 3
  {
    [SnByte(sn, 16), SnByte(sn, 8), SnByte(sn, 0)]
  }

  /** Address and serial number, the start of most answers. */
  function Identity(store: Info): (bytes: seq<bv8>)
    ensures |bytes| == 4
  {
    [store.addr] + SnBytes(Get(store, Sn))
  }

  function ReportPorts(d: Device, env: Environment, code: bv8): (Device, Action) {
    var (e, state) := PortState(d, env);
    (e, Reply(code, Identity(e.store) + [state]))
  }

  function ReportLamps(d: Device, env: Environment): (Device, Action) {
    var (e, state) := LampState(d, env);
    (e, Reply(0x31, Identity(e.store) + [state]))
  }

  /** The answer to 0x35 and 0x32. */
  function ReportRelay(d: Device, env: Environment): (Device, Action) {
    var (e, state) := RelayState(d, env);
    (e, Reply(0x35, [0x03, e.store.addr, state, ResultByte(e.flags)]))
  }

  /** Stores a serial number, then makes the device the wanted type unless it already is. */
  function AdoptSn(d: Device, env: Environment, sn: bv32, wanted: bv8): (Device, bool) {
    var (e, done) := Modify(d, env, Sn, sn);
    (if LockType(e.store) != wanted then Modify(e, env, DeviceType, Wide8(wanted)).0 else e, done)
  }

  /** 0x33 as written: type, address and serial number are taken from bytes 1 to 5 of the whole frame. */
  function ChangeDevice(d: Device, env: Environment, data: Buffer): (Device, bool) {
    if SnAt(data, 3) != Get(d.store, Sn) then (d, false)
    else
      var (e, typed) := Modify(d, env, DeviceType, Wide8(data[1]));
      if !typed then (e, false) else Modify(e, env, Addr, Wide8(data[2]))
  }

  function Verdict(done: bool): bv8 {
    if done then 0x10 else 0x01
  }

  /** 0x02 */
  function OnPorts(d: Device, env: Environment, data: Buffer): (Device, Action) {
    var (e, state) := PortState(SetPorts(d, env, data[5], data[6] != 0), env);
    (e, Reply(0x02, [e.store.addr, state]))
  }

  /** 0x03 */
  function OnYkAddr(d: Device, env: Environment, data: Buffer): (Device, Action) {
    if SnAt(data, 6) != Get(d.store, Sn) then (d, Silent)
    else (Modify(d, env, Addr, Wide8(data[5])).0, Restart)
  }

  /** 0x35 */
  function OnRelay(d: Device, env: Environment, data: Buffer): (Device, Action) {
    if data[5] == 0x10 then ReportRelay(SetRelay(d, env, true), env)
    else if data[5] == 0x01 then ReportRelay(SetRelay(d, env, false), env)
    else (d, Silent)
  }

  /** 0x32: an agreed request is carried out, and then the relay is engaged in any case. */
  function OnAgreement(d: Device, env: Environment, data: Buffer): (Device, Action) {
    if data[5] == 0x10 && data[6] == 0x10 then ReportRelay(SetRelay(SetRelay(d, env, true), env, true), env)
    else if data[5] == 0x10 && data[6] == 0x01 then ReportRelay(SetRelay(SetRelay(d, env, false), env, true), env)
    else (d, Silent)
  }

  /** 0x33 */
  function OnDevice(d: Device, env: Environment, data: Buffer): (Device, Action) {
    var (e, done) := ChangeDevice(d, env, data);
    (e, Reply(0x33, [LockType(e.store), e.store.addr, Verdict(done)]))
  }

  /** 0x07 */
  function OnYkSn(d: Device, env: Environment, data: Buffer): (Device, Action) {
    var e := AdoptSn(d, env, SnAt(data, 6), YK_LOCK).0;
    (e, Reply(0x07, [0] + SnBytes(Get(e.store, Sn))))
  }

  /** 0x37 */
  function OnAvcSn(d: Device, env: Environment, data: Buffer): (Device, Action) {
    var (e, done) := AdoptSn(d, env, SnAt(data, 6), AVC_SWITCH);
    (e, Reply(0x37, Identity(e.store) + [Verdict(done)]))
  }

  /** 0x2A */
  function OnTimeouts(d: Device, env: Environment, data: Buffer): (Device, Action) {
    var e := Modify(d, env, TimeoutExec, Wide8(data[5])).0;
    var f := Modify(e, env, TimeoutCmd, Wide8(data[6])).0;
    (f, Reply(0x2a, [f.store.addr, d.store.timeoutExec, d.store.timeoutCmd, f.store.timeoutExec, f.store.timeoutCmd]))
  }

  /** 0x23 */
  function OnColdAddr(d: Device, env: Environment, data: Buffer): (Device, Action) {
    var sn := SnAt(data, 6);
    var e := if sn == Get(d.store, Sn) then Modify(d, env, Addr, Wide8(data[5])).0 else d;
    (e, Reply(0x23, [e.store.addr] + SnBytes(sn) + [0]))
  }

  /** The handler's work up to, but not including, its final transmission or reset. */
  function React(d: Device, env: Environment, h: Handler, data: Buffer): (Device, Action) {
    match h
    case YkQueryState => ReportPorts(d, env, 0x01)
    case YkControl => OnPorts(d, env, data)
    case YkModifyAddr => OnYkAddr(d, env, data)
    case YkReportState => ReportPorts(d, env, 0x04)
    case YkModifySn => OnYkSn(d, env, data)
    case AvcQueryState => ReportLamps(d, env)
    case AvcControlCommand => OnRelay(d, env, data)
    case AvcControlRequest => OnAgreement(d, env, data)
    case AvcModifyDevice => OnDevice(d, env, data)
    case AvcModifySn => OnAvcSn(d, env, data)
    case AvcProductionQuery => ReportLamps(d, env)
    case ColdQueryAll => (d, Reply(0x21, Identity(d.store) + [0]))
    case ColdControl => (d, Reply(0x25, Identity(d.store) + [0]))
    case ColdModifyTimeout => OnTimeouts(d, env, data)
    case ColdModifyAddr => OnColdAddr(d, env, data)
    case ColdModifySn => (d, Silent)
    case ColdProductionQuery => (d, Silent)
  }

  /** Every answer's payload has two to five bytes. */
  lemma PayloadSize(d: Device, env: Environment, h: Handler, data: Buffer)
    ensures var action := React(d, env, h, data).1;
            action.Reply? ==> 2 <= |action.payload| <= 5
  {
    hide SnBytes, SnAt, Modify, SetPorts, SetRelay, PortState, LampState, RelayState, ResultByte, LockType, AdoptSn, ChangeDevice;
  }

  function Perform(d: Device, env: Environment, action: Action): Device
    requires action.Reply? ==> |action.payload| <= 5
  {
    match action
    case Silent => d
    case Reply(code, payload) => d.Transmit(code, payload)
    case Restart => Boot(d, env)
  }

  /** protocol_handler: the chosen handler, run to its end. */
  function Handle(d: Device, env: Environment, h: Handler, data: Buffer): Device {
    PayloadSize(d, env, h, data);
    var (e, action) := React(d, env, h, data);
    Perform(e, env, action)
  }
}
