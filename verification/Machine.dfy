/** The whole device: received messages, button presses and resets (applications/main.c, applications/lock.c). */
module Machine {
  import opened Config
  import opened CanChannel
  import opened Filter
  import opened Device
  import opened Protocol
  import opened Commands

  datatype Input = Message(msg: CanMsg) | Button | PowerCycle

  ghost predicate ValidInput(input: Input) {
    input.Message? ==> input.msg.Valid()
  }

  ghost predicate ValidInputs(inputs: seq<Input>) {
    forall i :: 0 <= i < |inputs| ==> ValidInput(inputs[i])
  }

  /** The receive buffer after a message was read into it: bytes past the message keep their old value. */
  function Received(env: Environment, h: History, msg: CanMsg): (data: Buffer)
    requires msg.Valid()
    ensures msg.Short() ==> data[..msg.len + 3] == Bytes(msg)
  {
    Seen(msg, env.beyond(h))[..msg.len + 3] + env.stack(h)[msg.len + 3..]
  }

  function OwnId(d: Device, env: Environment): bv8 {
    DeviceId(LockType(d.store), env)
  }

  /** The message passes the receive filter, the parser accepts it, and this is its handler. */
  ghost predicate Takes(d: Device, env: Environment, msg: CanMsg, h: Handler)
    requires msg.Valid()
  {
    d.filter.Passes(msg) && Accepts(Received(env, d.history, msg), msg.len + 3, OwnId(d, env), d.table, h)
  }

  ghost function Chosen(d: Device, env: Environment, msg: CanMsg): (choice: Option<Handler>)
    requires msg.Valid()
    ensures choice.Some? ==> Takes(d, env, msg, choice.value)
    ensures choice.None? ==> forall h :: !Takes(d, env, msg, h)
  {
    if h :| Takes(d, env, msg, h) then Some(h) else None
  }

  /** A message on the bus: filter, read, parse, handle. Without a table the parser pointer was never set
      and the call faults. */
  ghost function Receive(d: Device, env: Environment, msg: CanMsg): Device
    requires msg.Valid()
  {
    if !d.filter.Passes(msg) then d
    else if d.table.NoTable? then d.Log(Fault)
    else
      match Chosen(d, env, msg)
      case None => d
      case Some(h) => Handle(d, env, h, Received(env, d.history, msg))
  }

  /** thread_btn_press: an AVC switch asks for the opposite of its contact state. */
  function Press(d: Device, env: Environment): Device {
    if LockType(d.store) != AVC_SWITCH then d
    else
      var (e, contact) := ReadContact(d, env);
      e.Transmit(0x32, [e.store.addr, if contact then 0x01 else 0x10])
  }

  ghost function Step(d: Device, env: Environment, input: Input): Device
    requires ValidInput(input)
  {
    match input
    case Message(msg) => Receive(d, env, msg)
    case Button => Press(d, env)
    case PowerCycle => Boot(d, env)
  }

  ghost function Run(d: Device, env: Environment, inputs: seq<Input>): Device
    requires ValidInputs(inputs)
  {
    if inputs == [] then d
    else Step(Run(d, env, inputs[..|inputs| - 1]), env, inputs[|inputs| - 1])
  }

  /** Power-up with an arbitrary stored record. */
  function PowerUp(store: Info, env: Environment): Device {
    Boot(Device(store, NoTable, FilterFor(0, false), Flags(false, false, false),
                Pins(false, false, false, false, false, false), Start), env)
  }
}
