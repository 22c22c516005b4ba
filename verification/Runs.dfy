/** Properties of whole runs: any sequence of messages, button presses and resets. */
module Runs {
  import opened Config
  import opened ErrorDetection
  import opened Frame
  import opened CanChannel
  import opened Filter
  import opened Device
  import opened Relay
  import opened RelayProofs
  import opened Protocol
  import opened Commands
  import opened CommandProofs
  import opened Machine

  // ------------------------------------------------------------- single steps

  /** What is left of a command's effect after its final transmission or reset. */
  lemma HandleEffect(d: Device, env: Environment, h: Handler, data: Buffer)
    ensures var (e, action) := React(d, env, h, data);
            var f := Handle(d, env, h, data);
            && f.store == e.store
            && Ticks(f.history) == Ticks(e.history)
            && (!action.Restart? ==>
                  f.table == e.table && f.filter == e.filter && f.flags == e.flags && f.pins == e.pins)
            && (action.Restart? ==> f == Boot(e, env))
            && (!action.Reply? ==> Outbox(f.history) == Outbox(e.history))
            && (action.Reply? ==>
                  && 2 <= |action.payload| <= 5
                  && Outbox(f.history) == Outbox(e.history) + [Pack(Make(NO_HEADER, action.code, action.payload))])
  {
    hide React, Pack, Make, TableFor, LockType;
    PayloadSize(d, env, h, data);
  }

  /** A message is the work of at most one handler. */
  lemma OneHandler(d: Device, env: Environment, msg: CanMsg, g: Handler, h: Handler)
    requires msg.Valid() && Takes(d, env, msg, g) && Takes(d, env, msg, h)
    ensures g == h
  {
    hide CodeOf, Knows, CrcOk;
    CodesDistinct(g, h);
  }

  lemma OnlyHandler(d: Device, env: Environment, msg: CanMsg, h: Handler)
    requires msg.Valid() && Takes(d, env, msg, h)
    ensures forall g :: Takes(d, env, msg, g) <==> g == h
  {
    hide Takes;
    forall g | Takes(d, env, msg, g)
      ensures g == h
    {
      OneHandler(d, env, msg, g, h);
    }
  }

  lemma TakenIsHandled(d: Device, env: Environment, msg: CanMsg, h: Handler)
    requires msg.Valid() && !d.table.NoTable? && Takes(d, env, msg, h)
    ensures Receive(d, env, msg) == Handle(d, env, h, Received(env, d.history, msg))
  {
    KnownCommand(d, env, msg, h);
    hide Takes, Handle, Filter.Passes;
    OneHandler(d, env, msg, h, Chosen(d, env, msg).value);
  }

  /** The record changes only in a step that handles an accepted message, and then by the rule. */
  lemma StepStore(d: Device, env: Environment, input: Input)
    requires ValidInput(input)
    ensures var e := Step(d, env, input);
            e.store != d.store ==>
              && input.Message? && !d.table.NoTable?
              && exists h :: Takes(d, env, input.msg, h)
                          && StoreRule(h, Received(env, d.history, input.msg), d.store, e.store)
  {
    hide Takes, Handle, StoreRule, LockType, TableFor;
    if input.Message? && !d.table.NoTable? {
      var choice := Chosen(d, env, input.msg);
      if choice.Some? {
        var h, data := choice.value, Received(env, d.history, input.msg);
        StoreEffect(d, env, h, data);
        HandleEffect(d, env, h, data);
        assert Takes(d, env, input.msg, h);
      }
    }
  }

  // ---------------------------------------------- what holds in every reachable state

  /** A table is missing exactly if the stored type is 5. Outside the cold-lock table the filter listens
      at the stored address; a cold lock keeps its type, and its filter leaves the address open. */
  ghost predicate Sound(d: Device) {
    && (d.table.NoTable? <==> d.store.devType == DEVICE_TYPE_MAX)
    && (!d.table.ColdLockTable? ==> d.filter == FilterFor(d.store.addr, false))
    && (d.table.ColdLockTable? ==> IsCold(d.store.devType) && exists addr :: d.filter == FilterFor(addr, true))
  }

  /** The header of a message that reaches a handler: net id zero, and the stored address unless a cold
      lock is addressed by the YK device id. */
  lemma HeardHeader(d: Device, env: Environment, msg: CanMsg)
    requires msg.Valid() && Sound(d) && d.filter.Passes(msg)
    ensures var data := Received(env, d.history, msg);
            && (data[0] == YK_ID || data[0] == SWITCH_ID) && data[1] == 0
            && (!d.table.ColdLockTable? ==> data[2] == d.store.addr)
  {
    var data := Received(env, d.history, msg);
    assert data[0] == IdByte(msg.id, 16) && data[1] == IdByte(msg.id, 8) && data[2] == IdByte(msg.id, 0);
    hide FilterFor, Filter.Passes, IdByte, Received;
    if d.table.ColdLockTable? {
      var addr :| d.filter == FilterFor(addr, true);
      PassesExact(addr, true, msg);
    } else {
      PassesExact(d.store.addr, false, msg);
    }
  }

  /** Booting establishes the invariant. */
  lemma BootSound(d: Device, env: Environment)
    ensures Sound(Boot(d, env))
  {
    hide FilterFor;
  }

  lemma StepSound(d: Device, env: Environment, input: Input)
    requires ValidInput(input) && Sound(d)
    ensures Sound(Step(d, env, input))
  {
    hide Takes, Handle, FilterFor, Filter.Passes;
    match input {
      case PowerCycle => BootSound(d, env);
      case Button =>
      case Message(msg) =>
        if d.filter.Passes(msg) && !d.table.NoTable? && Chosen(d, env, msg).Some? {
          HandledSound(d, env, msg, Chosen(d, env, msg).value);
        }
    }
  }

  lemma HandledSound(d: Device, env: Environment, msg: CanMsg, h: Handler)
    requires msg.Valid() && Sound(d) && !d.table.NoTable? && Takes(d, env, msg, h)
    ensures Sound(Handle(d, env, h, Received(env, d.history, msg)))
  {
    var data := Received(env, d.history, msg);
    KnownCommand(d, env, msg, h);
    HeardHeader(d, env, msg);
    hide Takes, Handle, React, FilterFor, Filter.Passes, Received, Get, SnAt, Low24;
    HandleEffect(d, env, h, data);
    ClockEffect(d, env, h, data);
    StoreEffect(d, env, h, data);
    ActionOf(d, env, h, data);
    var (e, action) := React(d, env, h, data);
    if action.Restart? {
      BootSound(e, env);
    }
  }

  /** The two facts about an accepted message that the proofs below use. */
  lemma KnownCommand(d: Device, env: Environment, msg: CanMsg, h: Handler)
    requires msg.Valid() && Takes(d, env, msg, h)
    ensures d.filter.Passes(msg) && Knows(d.table, h) && CodeOf(h) == Received(env, d.history, msg)[4]
  {
  }

  /** In every state that power-up and any inputs lead to. */
  lemma {:induction false} AlwaysSound(store: Info, env: Environment, inputs: seq<Input>)
    requires ValidInputs(inputs)
    ensures Sound(Run(PowerUp(store, env), env, inputs))
  {
    hide Step, Sound;
    if inputs == [] {
      BootSound(Device(store, NoTable, FilterFor(0, false), Flags(false, false, false),
                       Pins(false, false, false, false, false, false), Start), env);
    } else {
      var n := |inputs| - 1;
      AlwaysSound(store, env, inputs[..n]);
      StepSound(Run(PowerUp(store, env), env, inputs[..n]), env, inputs[n]);
    }
  }

  lemma {:induction false} RunSound(d: Device, env: Environment, inputs: seq<Input>)
    requires ValidInputs(inputs) && Sound(d)
    ensures Sound(Run(d, env, inputs))
  {
    hide Step, Sound;
    if inputs != [] {
      var n := |inputs| - 1;
      RunSound(d, env, inputs[..n]);
      StepSound(Run(d, env, inputs[..n]), env, inputs[n]);
    }
  }

  // ----------------------------------------------------------- address safety

  /** This step handles an accepted 0x03 or 0x23 frame that presents the stored serial number. */
  ghost predicate AuthorisedAddress(d: Device, env: Environment, input: Input, addr: bv8)
    requires ValidInput(input)
  {
    && input.Message?
    && exists h :: && Takes(d, env, input.msg, h)
                   && (h.YkModifyAddr? || h.ColdModifyAddr?)
                   && Presents(h, Received(env, d.history, input.msg), d.store)
                   && RequestedAddr(h, Received(env, d.history, input.msg)) == addr
  }

  lemma StepAddress(d: Device, env: Environment, input: Input)
    requires ValidInput(input) && Sound(d)
    ensures var e := Step(d, env, input);
            e.store.addr != d.store.addr ==> AuthorisedAddress(d, env, input, e.store.addr)
  {
    var e := Step(d, env, input);
    hide Takes, Step, Get, SnAt, Received, FilterFor, Filter.Passes;
    StepStore(d, env, input);
    if e.store.addr != d.store.addr {
      var h :| Takes(d, env, input.msg, h) && StoreRule(h, Received(env, d.history, input.msg), d.store, e.store);
      KnownCommand(d, env, input.msg, h);
      HeardHeader(d, env, input.msg);
    }
  }

  /** Over every run, resets included: if the stored address changed, some step of the run handled an
      accepted 0x03 or 0x23 frame whose serial number, as its handler decodes it, was the one stored just
      before, and that frame asked for the address the device now has. 0x33 never changes it: the header
      byte it takes the address from is, by the filter, the address the device already has. */
  lemma {:induction false} AddressSafety(d: Device, env: Environment, inputs: seq<Input>) returns (i: nat)
    requires ValidInputs(inputs) && Sound(d)
    requires Run(d, env, inputs).store.addr != d.store.addr
    ensures i < |inputs|
    ensures AuthorisedAddress(Run(d, env, inputs[..i]), env, inputs[i], Run(d, env, inputs).store.addr)
  {
    hide Step, AuthorisedAddress, Sound;
    var n := |inputs| - 1;
    var before := Run(d, env, inputs[..n]);
    RunSound(d, env, inputs[..n]);
    StepAddress(before, env, inputs[n]);
    if before.store.addr == Run(d, env, inputs).store.addr {
      i := AddressSafety(d, env, inputs[..n]);
      assert inputs[..n][..i] == inputs[..i];
    } else {
      i := n;
    }
  }

  /** The converse: with a working EEPROM an authorised step sets the address. */
  lemma AuthorisedIsObeyed(d: Device, env: Environment, input: Input, addr: bv8)
    requires ValidInput(input) && !d.table.NoTable?
    requires forall g :: env.written(g)
    requires AuthorisedAddress(d, env, input, addr)
    ensures Step(d, env, input).store.addr == addr
  {
    hide Takes, Get, SnAt, Handle, React, Filter.Passes;
    var data := Received(env, d.history, input.msg);
    var h :| && Takes(d, env, input.msg, h)
             && (h.YkModifyAddr? || h.ColdModifyAddr?)
             && Presents(h, data, d.store) && RequestedAddr(h, data) == addr;
    TakenIsHandled(d, env, input.msg, h);
    AddressObeyed(d, env, h, data);
    HandleEffect(d, env, h, data);
  }

  /** A cold lock hears a command at every address: no part of the firmware compares the header's address
      byte, although the comment beside the opened filter leaves that to the parser. */
  lemma ColdHearsEveryAddress(d: Device, env: Environment, addr: bv8, h: Handler, payload: seq<bv8>)
    requires Sound(d) && d.table.ColdLockTable? && Knows(d.table, h) && |payload| <= 5
    ensures Takes(d, env, Pack(Make([YK_ID, 0, addr], CodeOf(h), payload)), h)
  {
    var frame := Make([YK_ID, 0, addr], CodeOf(h), payload);
    assert OwnId(d, env) == YK_ID;
    var own :| d.filter == FilterFor(own, true);
    MakeWellFormed([YK_ID, 0, addr], CodeOf(h), payload);
    PackPasses(frame, own, true);
    hide CrcOk, LengthMatches, LengthField, OwnId, FilterFor, Filter.Passes, CodeOf, Knows, Pack;
    LengthWraps(frame[3], |frame|);
    PackedTaken(d, env, frame, h);
  }

  /** A frame that passes the filter and the parser's tests is accepted; it fills the front of the buffer. */
  lemma PackedTaken(d: Device, env: Environment, frame: seq<bv8>, h: Handler)
    requires 5 <= |frame| <= 11 && d.filter.Passes(Pack(frame))
    requires CrcOk(frame) && LengthField(frame[3], |frame|) && GateOpen(frame[0], OwnId(d, env), frame[4])
    requires Knows(d.table, h) && CodeOf(h) == frame[4]
    ensures var data := Received(env, d.history, Pack(frame));
            && Takes(d, env, Pack(frame), h)
            && (forall i :: 0 <= i < |frame| ==> data[i] == frame[i])
            && (forall i :: |frame| <= i < 16 ==> data[i] == env.stack(d.history)[i])
  {
    var msg := Pack(frame);
    var data := Received(env, d.history, msg);
    RoundTrip(frame);
    assert data == frame + env.stack(d.history)[|frame|..];
    assert data[..|frame|] == frame;
    hide OwnId, Pack, Bytes, CrcOk, LengthField, Received, Knows, CodeOf, GateOpen, Filter.Passes;
  }

  /** Which packed frames pass a filter. */
  lemma PackPasses(frame: seq<bv8>, addr: bv8, cold: bool)
    requires 3 <= |frame| <= 11
    ensures FilterFor(addr, cold).Passes(Pack(frame)) <==> HeaderPasses(frame[0], frame[1], frame[2], addr, cold)
  {
    PassesExact(addr, cold, Pack(frame));
    hide FilterFor, Filter.Passes, Identifier, IdByte;
    IdentifierBytes(frame[0], frame[1], frame[2]);
  }

  // --------------------------------------------- the type that has no table

  lemma StepType(d: Device, env: Environment, input: Input)
    requires ValidInput(input) && Sound(d)
    ensures Step(d, env, input).store.devType == DEVICE_TYPE_MAX <==> d.store.devType == DEVICE_TYPE_MAX
  {
    var e := Step(d, env, input);
    hide Takes, Step, Get, SnAt, Received, FilterFor, Filter.Passes;
    StepStore(d, env, input);
    if e.store != d.store {
      var h :| Takes(d, env, input.msg, h) && StoreRule(h, Received(env, d.history, input.msg), d.store, e.store);
      KnownCommand(d, env, input.msg, h);
      HeardHeader(d, env, input.msg);
    }
  }

  /** Over every run: the type that has no command table is stored at the end exactly if it was stored at
      power-up, and exactly then the table is missing. */
  lemma {:induction false} MissingTableOnlyFromStart(store: Info, env: Environment, inputs: seq<Input>)
    requires ValidInputs(inputs)
    ensures var d := Run(PowerUp(store, env), env, inputs);
            && (d.store.devType == DEVICE_TYPE_MAX <==> store.devType == DEVICE_TYPE_MAX)
            && (d.table.NoTable? <==> store.devType == DEVICE_TYPE_MAX)
  {
    AlwaysSound(store, env, inputs);
    if inputs != [] {
      var n := |inputs| - 1;
      MissingTableOnlyFromStart(store, env, inputs[..n]);
      AlwaysSound(store, env, inputs[..n]);
      StepType(Run(PowerUp(store, env), env, inputs[..n]), env, inputs[n]);
      hide Step;
    }
  }

  /** A device without a table never comes back: no input changes its record or makes it send. */
  lemma {:induction false} NoTableForever(d: Device, env: Environment, inputs: seq<Input>)
    requires ValidInputs(inputs)
    requires d.table.NoTable? && d.store.devType == DEVICE_TYPE_MAX
    ensures var e := Run(d, env, inputs);
            e.store == d.store && e.table.NoTable? && Outbox(e.history) == Outbox(d.history)
  {
    hide Step;
    if inputs != [] {
      var n := |inputs| - 1;
      NoTableForever(d, env, inputs[..n]);
      NoTableStep(Run(d, env, inputs[..n]), env, inputs[n]);
    }
  }

  lemma NoTableStep(d: Device, env: Environment, input: Input)
    requires ValidInput(input)
    requires d.table.NoTable? && d.store.devType == DEVICE_TYPE_MAX
    ensures var e := Step(d, env, input);
            e.store == d.store && e.table.NoTable? && Outbox(e.history) == Outbox(d.history)
  {
    hide Handle, Takes, Filter.Passes, FilterFor;
  }

  // ------------------------------------------------------------------ answers

  /** A message the device may put on the bus. */
  ghost predicate GoodMessage(msg: CanMsg) {
    && msg.Short() && 5 <= msg.len
    && WellFormed(Bytes(msg)) && Bytes(msg)[..3] == NO_HEADER
  }

  lemma MadeIsGood(code: bv8, payload: seq<bv8>)
    requires 2 <= |payload| <= 5
    ensures GoodMessage(Pack(Make(NO_HEADER, code, payload)))
  {
    hide Make, Pack, Bytes, WellFormed;
    MakeWellFormed(NO_HEADER, code, payload);
    RoundTrip(Make(NO_HEADER, code, payload));
  }

  /** An accepted message is answered by at most one frame; whether it is answered, and under which
      code, is decided by its own function code and operands. */
  lemma Answer(d: Device, env: Environment, msg: CanMsg, h: Handler)
    requires msg.Valid() && !d.table.NoTable? && Takes(d, env, msg, h)
    ensures var data, e := Received(env, d.history, msg), Receive(d, env, msg);
            && (!Answered(h, data) ==> Outbox(e.history) == Outbox(d.history))
            && (Answered(h, data) ==>
                  exists payload :: 2 <= |payload| <= 5
                    && Outbox(e.history) == Outbox(d.history) + [Pack(Make(NO_HEADER, ReplyCode(data[4]), payload))])
  {
    var data := Received(env, d.history, msg);
    assert CodeOf(h) == data[4];
    hide Takes, Handle, React, Pack, Make, CodeOf, ReplyCode, Answered;
    TakenIsHandled(d, env, msg, h);
    HandleEffect(d, env, h, data);
    ClockEffect(d, env, h, data);
    ActionOf(d, env, h, data);
    var action := React(d, env, h, data).1;
    if action.Reply? {
      assert 2 <= |action.payload| <= 5;
    }
  }

  lemma StepSends(d: Device, env: Environment, input: Input)
    requires ValidInput(input)
    ensures var e := Step(d, env, input);
            || Outbox(e.history) == Outbox(d.history)
            || exists code, payload :: 2 <= |payload| <= 5
                 && Outbox(e.history) == Outbox(d.history) + [Pack(Make(NO_HEADER, code, payload))]
  {
    hide Takes, Handle, Pack, Make, Answered;
    match input {
      case Message(msg) =>
        if !d.table.NoTable? && Chosen(d, env, msg).Some? {
          Answer(d, env, msg, Chosen(d, env, msg).value);
        }
      case Button =>
        if LockType(d.store) == AVC_SWITCH {
          var (e, contact) := ReadContact(d, env);
          var payload: seq<bv8> := [e.store.addr, if contact then 0x01 else 0x10];
          assert Press(d, env) == e.Transmit(0x32, payload);
        }
      case PowerCycle =>
    }
  }

  /** Every frame ever sent, in answer to a request or to a button, is eight to eleven bytes long and
      passes the parser's own checksum and length tests at the receiving end. */
  lemma {:induction false} EverySentFrameIsGood(store: Info, env: Environment, inputs: seq<Input>)
    requires ValidInputs(inputs)
    ensures forall msg :: msg in Outbox(Run(PowerUp(store, env), env, inputs).history) ==> GoodMessage(msg)
  {
    hide GoodMessage, Pack, Make;
    if inputs != [] {
      var n := |inputs| - 1;
      EverySentFrameIsGood(store, env, inputs[..n]);
      var d := Run(PowerUp(store, env), env, inputs[..n]);
      StepSends(d, env, inputs[n]);
      hide Step;
      var e := Step(d, env, inputs[n]);
      if Outbox(e.history) != Outbox(d.history) {
        var code, payload :| 2 <= |payload| <= 5
          && Outbox(e.history) == Outbox(d.history) + [Pack(Make(NO_HEADER, code, payload))];
        MadeIsGood(code, payload);
      }
    }
  }

  // ------------------------------------------------------ time, flags and pins

  /** An accepted message is handled within its command's bound: 60 ticks for 0x02, 20 for 0x35,
      40 for 0x32 and none for the rest, whatever the contact sensor and the EEPROM do. */
  lemma BoundedHandling(d: Device, env: Environment, msg: CanMsg, h: Handler)
    requires msg.Valid() && !d.table.NoTable? && Takes(d, env, msg, h)
    ensures Ticks(Receive(d, env, msg).history) <= Ticks(d.history) + TickBound(h) <= Ticks(d.history) + 60
  {
    hide Takes, Handle, React;
    var data := Received(env, d.history, msg);
    TakenIsHandled(d, env, msg, h);
    HandleEffect(d, env, h, data);
    ClockEffect(d, env, h, data);
  }

  lemma StepFlags(d: Device, env: Environment, input: Input)
    requires ValidInput(input)
    requires d.flags.isAction ==> d.flags.isSet
    ensures var e := Step(d, env, input);
            e.flags.isAction ==> e.flags.isSet
  {
    hide Takes, Handle, React, LockType, TableFor;
    if input.Message? && !d.table.NoTable? {
      var choice := Chosen(d, env, input.msg);
      if choice.Some? {
        var data := Received(env, d.history, input.msg);
        FlagsEffect(d, env, choice.value, data);
        HandleEffect(d, env, choice.value, data);
      }
    }
  }

  /** In every reachable state the result byte is one of 0x00, 0x02, 0x10, 0x11, 0x12 and 0x13. */
  lemma {:induction false} ResultByteAlwaysValid(store: Info, env: Environment, inputs: seq<Input>)
    requires ValidInputs(inputs)
    ensures var flags := Run(PowerUp(store, env), env, inputs).flags;
            (flags.isAction ==> flags.isSet) && ResultCode(ResultByte(flags))
  {
    var d := Run(PowerUp(store, env), env, inputs);
    hide ResultCode, ResultByte;
    if inputs != [] {
      var n := |inputs| - 1;
      ResultByteAlwaysValid(store, env, inputs[..n]);
      StepFlags(Run(PowerUp(store, env), env, inputs[..n]), env, inputs[n]);
      hide Step;
    }
    ResultByteRange(d.flags);
  }

  /** What an observer of the bus knows about one port: the last command since reset that named it. */
  datatype Port = Unknown | Commanded(open: bool)

  ghost function Observe(port: Port, bit: nat, d: Device, env: Environment, input: Input): Port
    requires ValidInput(input) && bit < 8
  {
    match input
    case PowerCycle => Unknown
    case Button => port
    case Message(msg) =>
      var data := Received(env, d.history, msg);
      if Takes(d, env, msg, YkControl) && PortBit(data[5], bit) then Commanded(data[6] != 0)
      else if Takes(d, env, msg, YkModifyAddr) && Presents(YkModifyAddr, data, d.store) then Unknown
      else port
  }

  ghost function Observed(bit: nat, d: Device, env: Environment, inputs: seq<Input>): Port
    requires ValidInputs(inputs) && bit < 8
  {
    if inputs == [] then Unknown
    else
      var n := |inputs| - 1;
      Observe(Observed(bit, d, env, inputs[..n]), bit, Run(d, env, inputs[..n]), env, inputs[n])
  }

  /** The pins of a port show a command, and the control and K pins are complementary. */
  predicate Shows(port: Port, control: bool, k: bool) {
    port.Commanded? ==> control == port.open && k == !port.open
  }

  lemma StepPorts(p1: Port, p2: Port, d: Device, env: Environment, input: Input)
    requires ValidInput(input)
    requires Shows(p1, d.pins.ct1, d.pins.k1) && Shows(p2, d.pins.ct2, d.pins.k2)
    ensures var e := Step(d, env, input);
            && Shows(Observe(p1, 1, d, env, input), e.pins.ct1, e.pins.k1)
            && Shows(Observe(p2, 2, d, env, input), e.pins.ct2, e.pins.k2)
  {
    hide Takes, Handle, React, LockType, TableFor, FilterFor, Filter.Passes, PortBit, Presents;
    if input.Message? {
      if !d.filter.Passes(input.msg) || d.table.NoTable? {
        NothingTaken(d, env, input.msg);
      } else if Chosen(d, env, input.msg).Some? {
        MessagePorts(p1, p2, d, env, input.msg, Chosen(d, env, input.msg).value);
      }
    }
  }

  lemma MessagePorts(p1: Port, p2: Port, d: Device, env: Environment, msg: CanMsg, h: Handler)
    requires msg.Valid() && Takes(d, env, msg, h)
    requires Shows(p1, d.pins.ct1, d.pins.k1) && Shows(p2, d.pins.ct2, d.pins.k2)
    ensures var e := Handle(d, env, h, Received(env, d.history, msg));
            && Shows(Observe(p1, 1, d, env, Message(msg)), e.pins.ct1, e.pins.k1)
            && Shows(Observe(p2, 2, d, env, Message(msg)), e.pins.ct2, e.pins.k2)
  {
    hide Takes, Handle, React, PortBit, Presents;
    var data := Received(env, d.history, msg);
    PinsEffect(d, env, h, data);
    HandleEffect(d, env, h, data);
    ActionOf(d, env, h, data);
    if Takes(d, env, msg, YkControl) {
      OneHandler(d, env, msg, h, YkControl);
    }
  }

  lemma NothingTaken(d: Device, env: Environment, msg: CanMsg)
    requires msg.Valid() && (!d.filter.Passes(msg) || d.table.NoTable?)
    ensures forall h :: !Takes(d, env, msg, h)
  {
  }

  /** Over every run: once a 0x02 command named a port, its pins show the last such command since the
      last reset, complementary, and no other input disturbs them. */
  lemma {:induction false} PortsFollowCommands(d: Device, env: Environment, inputs: seq<Input>)
    requires ValidInputs(inputs)
    ensures var e := Run(d, env, inputs);
            && Shows(Observed(1, d, env, inputs), e.pins.ct1, e.pins.k1)
            && Shows(Observed(2, d, env, inputs), e.pins.ct2, e.pins.k2)
  {
    hide Step, Observe, Shows;
    if inputs == [] {
      UnknownShows(d.pins.ct1, d.pins.k1);
      UnknownShows(d.pins.ct2, d.pins.k2);
    } else {
      var n := |inputs| - 1;
      PortsFollowCommands(d, env, inputs[..n]);
      StepPorts(Observed(1, d, env, inputs[..n]), Observed(2, d, env, inputs[..n]),
                Run(d, env, inputs[..n]), env, inputs[n]);
    }
  }

  lemma UnknownShows(control: bool, k: bool)
    ensures Shows(Unknown, control, k)
  {
  }

  // --------------------------------------------------------- damaged messages

  /** The bytes of two messages differ in one to three bits, or only within eight consecutive bits. */
  ghost predicate Damaged(good: seq<bv8>, bad: seq<bv8>) {
    && |good| == |bad|
    && (|| 1 <= Weight(Errors(good, bad)) <= 3
        || (good != bad && exists start: nat :: WithinEight(good, bad, start)))
  }

  lemma DamageDetected(good: seq<bv8>, bad: seq<bv8>)
    requires |good| <= 11 && CrcOk(good) && Damaged(good, bad)
    ensures !CrcOk(bad)
  {
    hide CrcOk, Weight, Errors, WithinEight;
    if 1 <= Weight(Errors(good, bad)) <= 3 {
      FewBitChangesRejected(good, bad);
    } else {
      var start: nat :| WithinEight(good, bad, start);
      BurstsRejected(good, bad, start);
    }
  }

  /** A message damaged in this way does nothing at all, in any state of any device. */
  lemma DamagedMessageIgnored(d: Device, env: Environment, good: CanMsg, bad: CanMsg)
    requires good.Short() && bad.Short() && !d.table.NoTable?
    requires CrcOk(Bytes(good)) && Damaged(Bytes(good), Bytes(bad))
    ensures Receive(d, env, bad) == d
  {
    hide CrcOk, Damaged, Handle, Bytes, Knows, CodeOf, Filter.Passes;
    DamageDetected(Bytes(good), Bytes(bad));
    var data := Received(env, d.history, bad);
    assert !CrcOk(data[..bad.len + 3]);
  }

  // ------------------------------------------------- changing the device's kind

  /** A message whose bytes pass the parser's checksum and length tests and carry the code of h. */
  ghost predicate WellFormedFor(msg: CanMsg, h: Handler) {
    && msg.Short() && 2 <= msg.len
    && CrcOk(Bytes(msg)) && LengthField(Bytes(msg)[3], msg.len + 3) && Bytes(msg)[4] == CodeOf(h)
  }

  /** Once through the filter, such a message is taken exactly if the table offers its command and the
      device-id gate is open. */
  lemma TakenIff(d: Device, env: Environment, msg: CanMsg, h: Handler)
    requires WellFormedFor(msg, h) && d.filter.Passes(msg)
    ensures Takes(d, env, msg, h) <==> Knows(d.table, h) && GateOpen(Bytes(msg)[0], OwnId(d, env), CodeOf(h))
  {
    var data := Received(env, d.history, msg);
    var front := data[..msg.len + 3];
    assert data[0] == front[0] && data[3] == front[3] && data[4] == front[4];
    hide CrcOk, Bytes, OwnId, Knows, CodeOf, GateOpen, LengthField, Filter.Passes;
  }

  predicate IsSnCommand(h: Handler) {
    h.YkModifySn? || h.AvcModifySn?
  }

  /** With the YK or the AVC-switch table loaded, 0x07 and 0x37 are accepted under either device id. */
  lemma SnCommandAccepted(d: Device, env: Environment, msg: CanMsg, h: Handler)
    requires WellFormedFor(msg, h) && d.filter.Passes(msg) && IsSnCommand(h)
    requires d.table.YkTable? || d.table.AvcSwitchTable?
    ensures Takes(d, env, msg, h)
  {
    TakenIff(d, env, msg, h);
    hide CrcOk, Bytes, OwnId, Takes, LengthField, Filter.Passes;
  }

  /** One such message and a reset turn any of these devices into a YK lock or an AVC switch. */
  lemma KindChanges(d: Device, env: Environment, msg: CanMsg, h: Handler)
    requires WellFormedFor(msg, h) && d.filter.Passes(msg) && IsSnCommand(h)
    requires d.table.YkTable? || d.table.AvcSwitchTable?
    requires forall g :: env.written(g)
    ensures var e := Boot(Receive(d, env, msg), env);
            && LockType(e.store) == (if h.YkModifySn? then YK_LOCK else AVC_SWITCH)
            && e.table == (if h.YkModifySn? then YkTable else AvcSwitchTable)
            && Get(e.store, Sn) == SnAt(Received(env, d.history, msg), 6)
            && OwnId(e, env) == (if h.YkModifySn? then YK_ID else SWITCH_ID)
  {
    hide CrcOk, Bytes, Takes, Handle, React, LockType, Get, SnAt, LengthField, FilterFor, Filter.Passes;
    var data := Received(env, d.history, msg);
    SnCommandAccepted(d, env, msg, h);
    TakenIsHandled(d, env, msg, h);
    TypeAdopted(d, env, h, data);
    HandleEffect(d, env, h, data);
  }

  // --------------------------------------- a table that no longer fits the type

  /** No input of the run resets the device: no power cycle, and no 0x03 that is obeyed. */
  ghost predicate ResetFree(d: Device, env: Environment, inputs: seq<Input>)
    requires ValidInputs(inputs)
  {
    forall i :: 0 <= i < |inputs| ==> !Resets(Run(d, env, inputs[..i]), env, inputs[i])
  }

  ghost predicate Resets(d: Device, env: Environment, input: Input)
    requires ValidInput(input)
  {
    match input
    case PowerCycle => true
    case Button => false
    case Message(msg) => Takes(d, env, msg, YkModifyAddr)
                         && Presents(YkModifyAddr, Received(env, d.history, msg), d.store)
  }

  /** The serial-number command this input makes the device take, or none. */
  ghost function SnTaken(d: Device, env: Environment, input: Input): Option<Handler>
    requires ValidInput(input)
  {
    if input.Message? && Takes(d, env, input.msg, YkModifySn) then Some(YkModifySn)
    else if input.Message? && Takes(d, env, input.msg, AvcModifySn) then Some(AvcModifySn)
    else None
  }

  /** The last serial-number command the run took, or none. */
  ghost function LastSnCommand(d: Device, env: Environment, inputs: seq<Input>): Option<Handler>
    requires ValidInputs(inputs)
  {
    if inputs == [] then None
    else
      var n := |inputs| - 1;
      var taken := SnTaken(Run(d, env, inputs[..n]), env, inputs[n]);
      if taken.Some? then taken else LastSnCommand(d, env, inputs[..n])
  }

  /** The lock type after the serial-number commands of a run. */
  function TypeAfter(last: Option<Handler>, before: bv8): bv8 {
    match last
    case None => before
    case Some(h) => if h.YkModifySn? then YK_LOCK else AVC_SWITCH
  }

  lemma StepKind(d: Device, env: Environment, input: Input)
    requires ValidInput(input) && d.table.YkTable? && !Resets(d, env, input)
    requires forall g :: env.written(g)
    ensures var e := Step(d, env, input);
            && e.table == d.table && e.filter == d.filter
            && LockType(e.store) == TypeAfter(SnTaken(d, env, input), LockType(d.store))
  {
    hide Takes, Handle, React, Filter.Passes, FilterFor, Get, SnAt, Received, LockType;
    match input {
      case Button =>
      case Message(msg) =>
        if !d.filter.Passes(msg) {
          NothingTaken(d, env, msg);
        } else if Chosen(d, env, msg).Some? {
          HandledKind(d, env, msg, Chosen(d, env, msg).value);
        }
    }
  }

  lemma HandledKind(d: Device, env: Environment, msg: CanMsg, h: Handler)
    requires msg.Valid() && d.table.YkTable? && Takes(d, env, msg, h)
    requires forall g :: env.written(g)
    requires !Resets(d, env, Message(msg))
    ensures var e := Handle(d, env, h, Received(env, d.history, msg));
            && e.table == d.table && e.filter == d.filter
            && (Takes(d, env, msg, YkModifySn) <==> h.YkModifySn?)
            && (Takes(d, env, msg, AvcModifySn) <==> h.AvcModifySn?)
            && LockType(e.store) == (if h.YkModifySn? then YK_LOCK else if h.AvcModifySn? then AVC_SWITCH
                                     else LockType(d.store))
  {
    var data := Received(env, d.history, msg);
    hide Takes, Handle, React, Filter.Passes, Received, Get, SnAt, Low24;
    KnownCommand(d, env, msg, h);
    OnlyHandler(d, env, msg, h);
    HandleEffect(d, env, h, data);
    ClockEffect(d, env, h, data);
    ActionOf(d, env, h, data);
    if IsSnCommand(h) {
      TypeAdopted(d, env, h, data);
    } else {
      StoreEffect(d, env, h, data);
    }
  }

  /** With the YK table loaded and no reset, the lock type follows the last serial-number command while
      the table stays. */
  lemma {:induction false} KindFollowsSnCommands(d: Device, env: Environment, inputs: seq<Input>)
    requires ValidInputs(inputs) && ResetFree(d, env, inputs)
    requires d.table.YkTable? && forall g :: env.written(g)
    ensures var e := Run(d, env, inputs);
            && e.table == d.table && e.filter == d.filter
            && LockType(e.store) == TypeAfter(LastSnCommand(d, env, inputs), LockType(d.store))
  {
    hide Step, Takes, Resets, LockType, SnTaken;
    if inputs != [] {
      var n := |inputs| - 1;
      forall i | 0 <= i < n
        ensures !Resets(Run(d, env, inputs[..n][..i]), env, inputs[..n][i])
      {
        assert inputs[..n][..i] == inputs[..i];
      }
      KindFollowsSnCommands(d, env, inputs[..n]);
      StepKind(Run(d, env, inputs[..n]), env, inputs[n]);
    }
  }

  /** After a YK device took 0x37, and until it is reset, an ordinary YK command under the YK device id is
      taken if and only if 0x07 was the last serial-number command since. */
  lemma OldIdAfterSwitch(d: Device, env: Environment, change: CanMsg, inputs: seq<Input>, msg: CanMsg, h: Handler)
    requires d.table.YkTable? && forall g :: env.written(g)
    requires change.Valid() && Takes(d, env, change, AvcModifySn)
    requires ValidInputs(inputs) && ResetFree(Receive(d, env, change), env, inputs)
    requires WellFormedFor(msg, h) && d.filter.Passes(msg) && Bytes(msg)[0] == YK_ID
    requires Knows(YkTable, h) && !IsSnCommand(h)
    ensures var switched := Receive(d, env, change);
            Takes(Run(switched, env, inputs), env, msg, h)
            <==> LastSnCommand(switched, env, inputs) == Some(YkModifySn)
  {
    var switched := Receive(d, env, change);
    var e := Run(switched, env, inputs);
    Switched(d, env, change);
    hide Receive, Filter.Passes, Takes, Bytes, CrcOk, LengthField, LockType;
    KindFollowsSnCommands(switched, env, inputs);
    LastIsSn(switched, env, inputs);
    TakenIff(e, env, msg, h);
  }

  lemma Switched(d: Device, env: Environment, change: CanMsg)
    requires d.table.YkTable? && forall g :: env.written(g)
    requires change.Valid() && Takes(d, env, change, AvcModifySn)
    ensures var e := Receive(d, env, change);
            e.table == d.table && e.filter == d.filter && LockType(e.store) == AVC_SWITCH
  {
    hide Takes, Receive, LockType, Presents;
    OnlyHandler(d, env, change, AvcModifySn);
    StepKind(d, env, Message(change));
  }

  lemma {:induction false} LastIsSn(d: Device, env: Environment, inputs: seq<Input>)
    requires ValidInputs(inputs)
    ensures var last := LastSnCommand(d, env, inputs);
            last == None || last == Some(YkModifySn) || last == Some(AvcModifySn)
  {
    hide Takes, Run;
    if inputs != [] {
      LastIsSn(d, env, inputs[..|inputs| - 1]);
    }
  }
}
