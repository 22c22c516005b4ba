/** What a reset leaves: the messages a freshly started device obeys, and the state of its result flags. */
module Startup {
  import opened ErrorDetection
  import opened Config
  import opened Frame
  import opened CanChannel
  import opened Filter
  import opened Device
  import opened Relay
  import opened Protocol
  import opened Commands
  import opened CommandProofs
  import opened Machine
  import opened Runs

  /** The function codes of each stored type: 0 and 2 and everything out of range are YK locks, 1 and 3 cold
      locks, 4 an AVC switch, and 5 has no commands. */
  predicate Serves(devType: bv8, code: bv8) {
    if devType == 1 || devType == 3 then code in {0x21, 0x23, 0x25, 0x27, 0x2a, 0x2f}
    else if devType == 4 then code in {0x07, 0x31, 0x32, 0x33, 0x35, 0x37, 0x3f}
    else devType != 5 && code in {0x01, 0x02, 0x03, 0x04, 0x07, 0x37}
  }

  /** The headers of each stored type: the own device id and address; for 0x07 and 0x37 either device id;
      for a cold lock any address. */
  predicate Hears(devType: bv8, own: bv8, id: bv8, addr: bv8, code: bv8) {
    if devType == 1 || devType == 3 then id == 0x03
    else addr == own && (id == (if devType == 4 then 0x19 else 0x03)
                         || ((id == 0x03 || id == 0x19) && (code == 0x07 || code == 0x37)))
  }

  lemma TypeServes(store: Info, h: Handler)
    ensures Knows(TableFor(LockType(store)), h) <==> Serves(store.devType, CodeOf(h))
  {
  }

  lemma TypeHears(store: Info, env: Environment, id: bv8, addr: bv8, code: bv8)
    requires Serves(store.devType, code)
    ensures var lockType := LockType(store);
            HeaderPasses(id, 0, addr, store.addr, IsCold(lockType)) && GateOpen(id, DeviceId(lockType, env), code)
            <==> Hears(store.devType, store.addr, id, addr, code)
  {
  }

  /** After a reset, for every stored record: a message is taken by a handler exactly if it is an extended
      data frame with net id zero, correct checksum and length byte, a header the stored type hears, and
      the handler's function code, which must be one the stored type serves. */
  lemma BootTakes(d: Device, env: Environment, msg: CanMsg, h: Handler)
    requires msg.Valid()
    ensures var e := Boot(d, env);
            var data := Received(env, e.history, msg);
            Takes(e, env, msg, h)
            <==> && msg.extended && !msg.remote && msg.id <= 0xff_ffff
                 && CrcOk(data[..msg.len + 3]) && LengthField(data[3], msg.len + 3)
                 && data[1] == 0 && Hears(d.store.devType, d.store.addr, data[0], data[2], data[4])
                 && data[4] == CodeOf(h) && Serves(d.store.devType, data[4])
  {
    var e := Boot(d, env);
    var data := Received(env, e.history, msg);
    var lockType := LockType(d.store);
    assert data[0] == IdByte(msg.id, 16) && data[1] == IdByte(msg.id, 8) && data[2] == IdByte(msg.id, 0);
    hide CrcOk, LengthField, LockType, TableFor, DeviceId, FilterFor, Filter.Passes, IsCold, Knows, CodeOf, Serves,
         IdByte, Received, GateOpen, Hears;
    PassesExact(d.store.addr, IsCold(lockType), msg);
    TypeServes(d.store, h);
    if Serves(d.store.devType, data[4]) {
      TypeHears(d.store, env, data[0], data[2], data[4]);
    }
  }

  // ------------------------------------------------------------------ result flags

  /** The input makes the device carry out a relay command. */
  ghost predicate MovesRelay(d: Device, env: Environment, input: Input)
    requires ValidInput(input)
  {
    && input.Message?
    && var data := Received(env, d.history, input.msg);
       || (Takes(d, env, input.msg, AvcControlCommand) && Answered(AvcControlCommand, data))
       || (Takes(d, env, input.msg, AvcControlRequest) && Answered(AvcControlRequest, data))
  }

  /** No relay command was carried out since the last reset. */
  ghost predicate Untouched(d: Device, env: Environment, inputs: seq<Input>)
    requires ValidInputs(inputs)
  {
    inputs == []
    || var n := |inputs| - 1;
       var before := Run(d, env, inputs[..n]);
       || Resets(before, env, inputs[n])
       || (!MovesRelay(before, env, inputs[n]) && Untouched(d, env, inputs[..n]))
  }

  lemma UnansweredKeeps(d: Device, env: Environment, h: Handler, data: Buffer)
    requires (h.AvcControlCommand? || h.AvcControlRequest?) && !Answered(h, data)
    ensures React(d, env, h, data).0 == d
  {
  }

  const CLEAR := Flags(false, false, false)

  lemma HandleClear(d: Device, env: Environment, msg: CanMsg, h: Handler)
    requires msg.Valid() && Takes(d, env, msg, h)
    requires Resets(d, env, Message(msg)) || (!MovesRelay(d, env, Message(msg)) && d.flags == CLEAR)
    ensures Handle(d, env, h, Received(env, d.history, msg)).flags == CLEAR
  {
    var data := Received(env, d.history, msg);
    hide Takes, React, Handle, Received, Answered, Presents;
    OnlyHandler(d, env, msg, h);
    HandleEffect(d, env, h, data);
    ActionOf(d, env, h, data);
    if !Resets(d, env, Message(msg)) {
      FlagsEffect(d, env, h, data);
      if h.AvcControlCommand? || h.AvcControlRequest? {
        UnansweredKeeps(d, env, h, data);
      }
    }
  }

  lemma StepClear(d: Device, env: Environment, input: Input)
    requires ValidInput(input)
    requires Resets(d, env, input) || (!MovesRelay(d, env, input) && d.flags == CLEAR)
    ensures Step(d, env, input).flags == CLEAR
  {
    hide Takes, Handle, Received, Filter.Passes, FilterFor, Answered, Presents;
    match input {
      case PowerCycle =>
      case Button =>
      case Message(msg) =>
        if !d.filter.Passes(msg) || d.table.NoTable? {
          NothingTaken(d, env, msg);
        } else if Chosen(d, env, msg).Some? {
          HandleClear(d, env, msg, Chosen(d, env, msg).value);
        }
    }
  }

  /** Over every run: until a relay command is carried out after a reset, the result byte is zero. */
  lemma {:induction false} ResultZeroUntilCommand(store: Info, env: Environment, inputs: seq<Input>)
    requires ValidInputs(inputs) && Untouched(PowerUp(store, env), env, inputs)
    ensures var flags := Run(PowerUp(store, env), env, inputs).flags;
            flags == CLEAR && ResultByte(flags) == 0
  {
    hide Step, Resets, MovesRelay;
    if inputs != [] {
      var n := |inputs| - 1;
      var before := Run(PowerUp(store, env), env, inputs[..n]);
      if !Resets(before, env, inputs[n]) {
        ResultZeroUntilCommand(store, env, inputs[..n]);
      }
      StepClear(before, env, inputs[n]);
    }
  }
}
