/** The device as its environment sees it: stored record, loaded command table, result flags, pins,
    and the history of everything that crossed the hardware boundary. */
module Device {
  import opened Config
  import opened Frame
  import opened CanChannel
  import opened Filter

  datatype Option<T> = None | Some(value: T)

  /** Output pins; CT1/K1 and CT2/K2 drive ports 1 and 2, the relay coils belong to K0. */
  datatype Pin = Ct1 | K1 | Ct2 | K2 | RelayClose | RelayOpen

  datatype Pins = Pins(ct1: bool, k1: bool, ct2: bool, k2: bool, relayClose: bool, relayOpen: bool) {
    function Set(pin: Pin, level: bool): Pins {
      match pin
      case Ct1 => this.(ct1 := level)
      case K1 => this.(k1 := level)
      case Ct2 => this.(ct2 := level)
      case K2 => this.(k2 := level)
      case RelayClose => this.(relayClose := level)
      case RelayOpen => this.(relayOpen := level)
    }
  }

  datatype Event =
    | PinWrite(pin: Pin, level: bool)
    | Delay(ticks: nat)
    | ContactRead(level: bool)
    | InputRead(level: bool)
    | EepromWrite(record: Info, done: bool)
    | Sent(msg: CanMsg)
    | Reboot(pins: Pins)
    | Fault

  datatype History = Start | Then(past: History, event: Event)

  /** The receive buffer on the stack of rx_cb. */
  type Buffer = b: seq<bv8> | |b| == 16 witness [0, 0, 0, 0, 0, 0, 0, 0, 0, 0, 0, 0, 0, 0, 0, 0]

  /** Everything the firmware does not control. Each answer may depend on the whole history.
      contact: the relay contact sensor. input: the digital input. written: whether an EEPROM write
      succeeds. visible: whether a read-back poll already sees the record just written. powerUp: pin
      levels after a reset. stack: what the receive buffer holds before a message is read into it.
      beyond: the bytes that follow the received message's data array in memory. pastTable: the byte that
      follows the device id table in memory. */
  datatype Environment = Environment(
    contact: History -> bool,
    input: History -> bool,
    written: History -> bool,
    visible: History -> bool,
    powerUp: History -> Pins,
    stack: History -> Buffer,
    beyond: History -> Tail,
    pastTable: bv8)

  datatype Table = YkTable | AvcSwitchTable | ColdLockTable | NoTable

  /** avc_state: the outcome of the last relay command. */
  datatype Flags = Flags(isAction: bool, isSet: bool, isSave: bool)

  datatype Device = Device(
    store: Info, table: Table, filter: Filter, flags: Flags, pins: Pins, history: History) {

    /** Appends an event; the views of the history below change by just that event. */
    function Log(event: Event): (e: Device)
      ensures Ticks(e.history) == Ticks(history) + if event.Delay? then event.ticks else 0
      ensures Outbox(e.history) == Outbox(history) + if event.Sent? then [event.msg] else []
      ensures Writes(e.history) == Writes(history) + if event.EepromWrite? then 1 else 0
      ensures LastContact(e.history) == if event.ContactRead? then Some(event.level) else LastContact(history)
    {
      this.(history := Then(history, event))
    }

    function Wait(ticks: nat): Device {
      Log(Delay(ticks))
    }

    function Drive(pin: Pin, level: bool): Device {
      this.(pins := pins.Set(pin, level)).Log(PinWrite(pin, level))
    }

    function Transmit(code: bv8, payload: seq<bv8>): Device
      requires |payload| <= 5
    {
      Log(Sent(Pack(Make(NO_HEADER, code, payload))))
    }
  }

  // -------------------------------------------------- views of the history

  function Ticks(h: History): nat {
    match h
    case Start => 0
    case Then(past, Delay(t)) => Ticks(past) + t
    case Then(past, _) => Ticks(past)
  }

  function Outbox(h: History): seq<CanMsg> {
    match h
    case Start => []
    case Then(past, Sent(m)) => Outbox(past) + [m]
    case Then(past, _) => Outbox(past)
  }

  /** The record writes attempted so far, oldest first. */
  function Writes(h: History): nat {
    match h
    case Start => 0
    case Then(past, EepromWrite(_, _)) => Writes(past) + 1
    case Then(past, _) => Writes(past)
  }

  /** The level last read from the relay contact. */
  function LastContact(h: History): Option<bool> {
    match h
    case Start => None
    case Then(past, ContactRead(level)) => Some(level)
    case Then(past, _) => LastContact(past)
  }

  // ------------------------------------------------------------ device types

  const YK_LOCK: bv8 := 0
  const YK_COLD_LOCK: bv8 := 1
  const AVC: bv8 := 2
  const AVC_COLD_LOCK: bv8 := 3
  const AVC_SWITCH: bv8 := 4
  const DEVICE_TYPE_MAX: bv8 := 5

  /** get_device: out-of-range types read as the default; the value DEVICE_TYPE_MAX slips through. */
  function LockType(store: Info): bv8 {
    if store.devType > DEVICE_TYPE_MAX then YK_LOCK else store.devType
  }

  const DEVICE_IDS: seq<bv8> := [0x03, 0x03, 0x03, 0x03, 0x19]

  /** get_device_id_by_lock_type; an index past the table reads whatever memory follows it. */
  function DeviceId(lockType: bv8, env: Environment): bv8 {
    if lockType < DEVICE_TYPE_MAX then DEVICE_IDS[lockType as int] else env.pastTable
  }

  /** protocol_init: the command table for a lock type. */
  function TableFor(lockType: bv8): Table {
    if lockType == YK_LOCK || lockType == AVC then YkTable
    else if lockType == YK_COLD_LOCK || lockType == AVC_COLD_LOCK then ColdLockTable
    else if lockType == AVC_SWITCH then AvcSwitchTable
    else NoTable
  }

  predicate IsCold(lockType: bv8) {
    lockType == YK_COLD_LOCK || lockType == AVC_COLD_LOCK
  }

  /** A reset: nothing but the stored record survives; table and receive filter are set from it. */
  function Boot(d: Device, env: Environment): Device {
    var pins := env.powerUp(d.history);
    var lockType := LockType(d.store);
    Device(d.store, TableFor(lockType), FilterFor(d.store.addr, IsCold(lockType)),
           Flags(false, false, false), pins, Then(d.history, Reboot(pins)))
  }

  // --------------------------------------------------------- primitive steps

  function ReadContact(d: Device, env: Environment): (Device, bool) {
    var level := env.contact(d.history);
    (d.Log(ContactRead(level)), level)
  }

  function ReadInput(d: Device, env: Environment): (Device, bool) {
    var level := env.input(d.history);
    (d.Log(InputRead(level)), level)
  }

  /** config_modify, seen from outside its caches: a whole-record write that lands or has no effect. */
  function Modify(d: Device, env: Environment, key: Key, v: bv32): (Device, bool) {
    var record := Put(d.store, key, v);
    var done := env.written(d.history);
    (d.(store := if done then record else d.store).Log(EepromWrite(record, done)), done)
  }
}
