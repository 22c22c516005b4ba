/** The firmware as it is written: static variables, caches of the stored record, polling loops and byte
    buffers filled in place. Each routine is proved against the device model, which has no caches. */
module Firmware {
  import opened Config
  import Crc8
  import opened Frame
  import opened CanChannel
  import opened Filter
  import opened Device
  import opened Relay
  import opened RelayProofs
  import opened Protocol
  import opened Commands
  import opened Machine
  import opened Runs

  datatype Hardware = HwYk | HwYkColdLock | HwAvcColdLock | HwAvcSwitch

  /** struct lock_info: the mirror of the record that the parser and the handlers consult. */
  datatype LockInfo = LockInfo(devId: bv8, netId: bv8, addr: bv8, sn: bv32, lockType: bv8, hardware: Hardware)

  /** The mirror is a function of the stored record. */
  function Mirror(store: Info, env: Environment): LockInfo {
    LockInfo(DeviceId(LockType(store), env), 0, store.addr, Get(store, Sn), LockType(store), HwAvcSwitch)
  }

  class Firmware {
    const env: Environment
    var eeprom: seq<bv8>
    /** The record the EEPROM held before its last write; a read-back poll may still see it. */
    var previous: seq<bv8>
    /** self.config.info */
    var ram: Info
    /** self.info */
    var info: LockInfo
    /** self.set */
    var table: Table
    /** The filter banks of the CAN controller. */
    var filter: Filter
    /** self.avc_state */
    var flags: Flags
    var pins: Pins
    var history: History

    /** The device the caches stand for. */
    ghost function View(): Device
      requires |eeprom| == 8
      reads this
    {
      Device(Decode(eeprom), table, filter, flags, pins, history)
    }

    /** The mirror agrees with the EEPROM. */
    ghost predicate Mirrored()
      reads this
    {
      |eeprom| == 8 && |previous| == 8 && info == Mirror(Decode(eeprom), env)
    }

    /** RAM copy and mirror agree with the EEPROM. */
    ghost predicate Coherent()
      reads this
    {
      Mirrored() && ram == Decode(eeprom)
    }

    // ------------------------------------------------------------------ EEPROM

    method At24Write(bytes: seq<bv8>) returns (done: bool)
      requires |eeprom| == 8 && |bytes| == 8
      modifies this`eeprom, this`previous, this`history
      ensures |eeprom| == 8
      ensures done == env.written(old(history))
      ensures history == Then(old(history), EepromWrite(Decode(bytes), done))
      ensures done ==> eeprom == bytes && previous == old(eeprom)
      ensures !done ==> eeprom == old(eeprom) && previous == old(previous)
    {
      done := env.written(history);
      history := Then(history, EepromWrite(Decode(bytes), done));
      if done {
        previous := eeprom;
        eeprom := bytes;
      }
    }

    /** config_get: refreshes the whole RAM copy, then picks the field. A poll right after a write
        may still read the previous record. */
    method ConfigGet(key: Key, polling: bool) returns (v: bv32)
      requires |eeprom| == 8 && |previous| == 8
      modifies this`ram
      ensures ram == Decode(if polling && !env.visible(history) then previous else eeprom)
      ensures v == Get(ram, key)
    {
      ram := Decode(if polling && !env.visible(history) then previous else eeprom);
      match key {
        case DeviceType => v := Wide8(ram.devType);
        case Addr => v := Wide8(ram.addr);
        case Sn => v := Wide24(ram.sn);
        case TimeoutExec => v := Wide8(ram.timeoutExec);
        case TimeoutCmd => v := Wide8(ram.timeoutCmd);
        case SwitchState => v := Wide8(ram.switchState);
      }
    }

    /** config_modify: changes a copy of the RAM record and writes all of it; on success the RAM copy
        and the mirror follow. */
    method ConfigModify(key: Key, v: bv32) returns (done: bool)
      requires Coherent()
      modifies this`eeprom, this`previous, this`history, this`ram, this`info
      ensures Coherent()
      ensures (View(), done) == Modify(old(View()), env, key, v)
      ensures done ==> previous == old(eeprom)
    {
      var record := ram;
      match key {
        case DeviceType => record := record.(devType := Low8(v));
        case Addr => record := record.(addr := Low8(v));
        case Sn => record := record.(sn := Low24(v));
        case TimeoutExec => record := record.(timeoutExec := Low8(v));
        case TimeoutCmd => record := record.(timeoutCmd := Low8(v));
        case SwitchState => record := record.(switchState := Low8(v));
      }
      assert record == Put(ram, key, v);
      DecodeEncode(record);
      hide Low8, Low24, Encode, Decode, Mirror, Put;
      done := At24Write(Encode(record));
      if done {
        ram := record;
        LockInfoUpdate();
      }
    }

    // ------------------------------------------------- getters and the mirror

    method GetAddr() returns (addr: bv8)
      requires |eeprom| == 8 && |previous| == 8
      modifies this`ram
      ensures ram == Decode(eeprom) && addr == ram.addr
    {
      hide Decode;
      var v := ConfigGet(Addr, false);
      WideLow(ram.addr);
      addr := Low8(v);
    }

    method GetSn() returns (sn: bv32)
      requires |eeprom| == 8 && |previous| == 8
      modifies this`ram
      ensures ram == Decode(eeprom) && sn == Get(ram, Sn)
    {
      hide Decode;
      sn := ConfigGet(Sn, false);
    }

    method GetDevice() returns (lockType: bv8)
      requires |eeprom| == 8 && |previous| == 8
      modifies this`ram
      ensures ram == Decode(eeprom) && lockType == LockType(ram)
    {
      hide Decode;
      var v := ConfigGet(DeviceType, false);
      WideLow(ram.devType);
      var devType := Low8(v);
      if devType > DEVICE_TYPE_MAX {
        devType := YK_LOCK;
      }
      lockType := devType;
    }

    /** lock_info_update */
    method LockInfoUpdate()
      requires |eeprom| == 8 && |previous| == 8
      modifies this`ram, this`info
      ensures ram == Decode(eeprom) && info == Mirror(Decode(eeprom), env)
    {
      hide Decode, LockType;
      var addr := GetAddr();
      var sn := GetSn();
      var lockType := GetDevice();
      info := info.(devId := DeviceId(lockType, env));
      info := info.(netId := 0x00);
      info := info.(addr := addr);
      info := info.(sn := sn);
      info := info.(lockType := lockType);
      info := info.(hardware := HwAvcSwitch);
    }

    // ---------------------------------------------------------------- start-up

    /** rt_hw_cpu_reset followed by start-up: static variables are cleared, config_init reads the
        record, lock_init refreshes the caches and loads the table. */
    method Reset()
      requires |eeprom| == 8 && |previous| == 8
      modifies this
      ensures Coherent()
      ensures View() == Boot(old(View()), env)
    {
      pins := env.powerUp(history);
      history := Then(history, Reboot(pins));
      flags := Flags(false, false, false);
      table := NoTable;
      ConfigInit();
      LockInfoUpdate();
      ProtocolInit();
      InstallFilter();
    }

    /** The part of main that builds the receive filter from the mirror and installs it. */
    method InstallFilter()
      requires Coherent()
      modifies this`filter
      ensures Coherent()
      ensures filter == FilterFor(Decode(eeprom).addr, IsCold(LockType(Decode(eeprom))))
    {
      hide Decode, LockType, Identifier;
      var addr, netId, devId := info.addr, info.netId, info.devId;
      var first := Item(Identifier(devId, netId, addr), EXACT);
      var second := Item(0, EXACT);
      if info.hardware == HwAvcSwitch {
        first := first.(id := Identifier(DeviceId(YK_LOCK, env), netId, addr));
        second := second.(id := Identifier(DeviceId(AVC_SWITCH, env), netId, addr));
      }
      if info.lockType == AVC_COLD_LOCK || info.lockType == YK_COLD_LOCK {
        first := first.(mask := first.mask << 8);
      }
      filter := Filter(first, second);
    }

    /** config_init: defaults for a zero address, a zero serial number and a type out of range; the
        next read of the record overwrites them. */
    method ConfigInit()
      requires |eeprom| == 8
      modifies this`ram
      ensures var stored := Decode(eeprom);
              ram == Info(0, if stored.devType < DEVICE_TYPE_MAX then stored.devType else YK_LOCK, 0, 0,
                          if stored.addr != 0 then stored.addr else 0x01, if stored.sn != 0 then stored.sn else 0x000001)
    {
      hide Decode;
      var stored := Decode(eeprom);
      ram := Info(0, 0, 0, 0, 0, 0);
      ram := ram.(addr := if stored.addr != 0 then stored.addr else 0x01);
      ram := ram.(sn := if stored.sn != 0 then stored.sn else 0x000001);
      ram := ram.(devType := if stored.devType < DEVICE_TYPE_MAX then stored.devType else YK_LOCK);
    }

    /** protocol_init; for any other type the table stays unset. */
    method ProtocolInit()
      requires Coherent() && table.NoTable?
      modifies this`table
      ensures Coherent() && table == TableFor(LockType(Decode(eeprom)))
    {
      hide Decode, LockType;
      var lockType := info.lockType;
      if lockType == YK_LOCK {
        table := YkTable;
      } else if lockType == YK_COLD_LOCK {
        table := ColdLockTable;
      } else if lockType == AVC {
        table := YkTable;
      } else if lockType == AVC_COLD_LOCK {
        table := ColdLockTable;
      } else if lockType == AVC_SWITCH {
        table := AvcSwitchTable;
      }
    }

    constructor (env: Environment, stored: seq<bv8>)
      requires |stored| == 8
      ensures Coherent() && this.env == env
      ensures View() == PowerUp(Decode(stored), env)
    {
      this.env := env;
      eeprom := stored;
      previous := stored;
      ram := Info(0, 0, 0, 0, 0, 0);
      info := LockInfo(0, 0, 0, 0, 0, HwYk);
      table := NoTable;
      filter := FilterFor(0, false);
      flags := Flags(false, false, false);
      pins := Pins(false, false, false, false, false, false);
      history := Start;
      new;
      Reset();
    }

    // ---------------------------------------------------------- pins and delays

    method PinWrite(pin: Pin, level: bool)
      requires |eeprom| == 8
      modifies this`pins, this`history
      ensures View() == old(View()).Drive(pin, level)
    {
      pins := pins.Set(pin, level);
      history := Then(history, Event.PinWrite(pin, level));
    }

    method ThreadDelay(ticks: nat)
      requires |eeprom| == 8
      modifies this`history
      ensures View() == old(View()).Wait(ticks)
    {
      history := Then(history, Delay(ticks));
    }

    /** AVC_RELAY_CHECK */
    method RelayCheck() returns (level: bool)
      requires |eeprom| == 8
      modifies this`history
      ensures (View(), level) == ReadContact(old(View()), env)
    {
      level := env.contact(history);
      history := Then(history, ContactRead(level));
    }

    method InputState() returns (level: bool)
      requires |eeprom| == 8
      modifies this`history
      ensures (View(), level) == ReadInput(old(View()), env)
    {
      level := env.input(history);
      history := Then(history, InputRead(level));
    }

    /** AVC_RELAY_CONTROL */
    method RelayPulse(coil: Pin)
      requires |eeprom| == 8
      modifies this`pins, this`history
      ensures View() == Pulse(old(View()), coil)
    {
      PinWrite(coil, true);
      ThreadDelay(PULSE);
      PinWrite(coil, false);
    }

    // ----------------------------------------------------------------- control

    /** The polling loop of the K0 commands. */
    method PollContact(wanted: bool)
      requires |eeprom| == 8
      modifies this`history
      ensures View() == Await(old(View()), env, wanted, CONTACT_POLLS)
    {
      hide Await;
      var i := 0;
      while i < CONTACT_POLLS
        invariant 0 <= i <= CONTACT_POLLS
        invariant Await(View(), env, wanted, CONTACT_POLLS - i) == Await(old(View()), env, wanted, CONTACT_POLLS)
      {
        AwaitOnce(View(), env, wanted, CONTACT_POLLS - i);
        var level := RelayCheck();
        if level == wanted {
          return;
        }
        ThreadDelay(1);
        i := i + 1;
      }
      AwaitOnce(View(), env, wanted, 1);
    }

    /** control(CONTROL_YK_OPEN, &port) and control(CONTROL_YK_CLOSE, &port) */
    method ControlPorts(port: bv8, open: bool)
      requires |eeprom| == 8
      modifies this`pins, this`history
      ensures View() == SetPorts(old(View()), env, port, open)
    {
      hide Await, PortBit;
      if PortBit(port, 0) {
        if open {
          RelayPulse(RelayOpen);
        } else {
          PinWrite(RelayClose, true);
          PinWrite(RelayOpen, false);
        }
        PollContact(open);
      }
      if PortBit(port, 1) {
        PinWrite(Ct1, open);
        PinWrite(K1, !open);
      }
      if PortBit(port, 2) {
        PinWrite(Ct2, open);
        PinWrite(K2, !open);
      }
    }

    /** avc_relay_state_save: read, write if different, then poll until the new value is read back. */
    method RelayStateSave(closed: bool) returns (saved: bool)
      requires Mirrored()
      modifies this`eeprom, this`previous, this`history, this`ram, this`info
      ensures Mirrored()
      ensures (View(), saved) == SaveRelay(old(View()), env, closed)
    {
      var target := Wide8(StateByte(closed));
      var state := ConfigGet(SwitchState, false);
      WideStates(ram.switchState, closed);
      if state == target {
        return true;
      }
      var done := ConfigModify(SwitchState, target);
      if !done {
        return false;
      }
      StoredState(Decode(old(eeprom)), closed);
      hide Decode, Wide8, Put, StateByte, Mirror;
      ghost var start := View();
      var i := 0;
      while i < SAVE_POLLS
        invariant 0 <= i <= SAVE_POLLS
        invariant Mirrored() && previous == old(eeprom)
        invariant View() == start.(history := history)
        invariant AwaitVisible(View(), env, SAVE_POLLS - i) == AwaitVisible(start, env, SAVE_POLLS)
      {
        state := ConfigGet(SwitchState, true);
        WideStates(ram.switchState, closed);
        if state == target {
          return true;
        }
        ThreadDelay(1);
        i := i + 1;
      }
      saved := false;
    }

    /** control(CONTROL_AVC_SWITCH_ENGAGE) and control(CONTROL_AVC_SWITCH_DISENGAGE) */
    method ControlSwitch(closed: bool)
      requires Mirrored()
      modifies this`eeprom, this`previous, this`history, this`ram, this`info, this`flags, this`pins
      ensures Mirrored()
      ensures View() == SetRelay(old(View()), env, closed)
    {
      hide Mirror, SaveRelay, Decode;
      var level := RelayCheck();
      ghost var checked := View();
      var saved;
      if level == closed {
        flags := flags.(isAction := false);
        flags := flags.(isSet := true);
        SaveKeepsFlags(checked, env, closed, flags);
        saved := RelayStateSave(closed);
        flags := flags.(isSave := saved);
        return;
      }
      if closed {
        RelayPulse(RelayClose);
      } else {
        RelayPulse(RelayOpen);
      }
      level := RelayCheck();
      checked := View();
      if level == closed {
        flags := flags.(isAction := true);
        flags := flags.(isSet := true);
      } else {
        flags := flags.(isAction := false);
        flags := flags.(isSet := false);
      }
      SaveKeepsFlags(checked, env, closed, flags);
      saved := RelayStateSave(closed);
      flags := flags.(isSave := saved);
    }

    // ------------------------------------------------------------- query_state

    /** query_state(YK_PORT_STATE) */
    method QueryPorts() returns (state: bv8)
      requires |eeprom| == 8
      modifies this`history
      ensures (View(), state) == PortState(old(View()), env)
    {
      state := 0;
      state := state | BitAt(pins.ct2, 6);
      state := state | BitAt(pins.ct1, 5);
      var contact := RelayCheck();
      state := state | BitAt(contact, 4);
      var input := InputState();
      state := state | BitAt(input, 0);
    }

    /** query_state(AVC_SWITCH_LED_RELAY_STATE) */
    method QueryLamps() returns (state: bv8)
      requires |eeprom| == 8
      modifies this`history
      ensures (View(), state) == LampState(old(View()), env)
    {
      state := 0;
      state := state | BitAt(pins.ct1, 5);
      state := state | BitAt(pins.k1, 4);
      var contact := RelayCheck();
      state := state | if contact then 0x10 else 0x01;
    }

    /** query_state(AVC_SWITCH_RELAY_STATE) */
    method QueryRelay() returns (state: bv8)
      requires |eeprom| == 8
      modifies this`history
      ensures (View(), state) == RelayState(old(View()), env)
    {
      state := 0;
      var contact := RelayCheck();
      state := state | if contact then 0x10 else 0x01;
    }

    /** query_state(AVC_SWITCH_OPERATION_RESULT) */
    method QueryResult() returns (state: bv8)
      ensures state == ResultByte(flags)
    {
      state := 0;
      state := state | BitAt(flags.isSet, 4);
      state := state | BitAt(flags.isSave, 1);
      state := state | BitAt(flags.isAction, 0);
    }

    // ----------------------------------------------------------------- replies

    /** The end of every reply: checksum into the last byte, then the channel's write. */
    method SendBuffer(buff: array<bv8>)
      requires |eeprom| == 8
      requires 6 <= buff.Length <= 11 && buff[3] as int == buff.Length - 5
      requires buff[0] == 0 && buff[1] == 0 && buff[2] == 0
      modifies this`history, buff
      ensures View() == old(View()).Transmit(old(buff[4]), old(buff[5..buff.Length - 1]))
    {
      var n := buff.Length;
      var crc := Crc8.Compute(buff, n - 1);
      buff[n - 1] := crc;
      assert buff[..][..n - 1] == buff[..n - 1] == old(buff[..n - 1]);
      hide Make, Pack, Crc8.Checksum;
      Filled(buff[..]);
      assert buff[..][..3] == NO_HEADER;
      assert buff[..][5..n - 1] == old(buff[5..n - 1]);
      var sent, msg := CanChannel.Write(buff, n);
      assert buff[..n] == buff[..];
      history := Then(history, Sent(msg));
    }

    // ---------------------------------------------------------------- handlers

    /** Most answers: address, serial number and a state byte. */
    method ReplyReport(code: bv8, addr: bv8, sn: bv32, state: bv8)
      requires |eeprom| == 8
      modifies this`history
      ensures View() == old(View()).Transmit(code, [addr] + SnBytes(sn) + [state])
    {
      var buff := new bv8[11](_ => 0);
      FillReport(buff, code, addr, sn, state);
      hide SnBytes, Make, Pack, Decode;
      SendBuffer(buff);
    }

    static method FillReport(buff: array<bv8>, code: bv8, addr: bv8, sn: bv32, state: bv8)
      requires buff.Length == 11 && forall k :: 0 <= k < 11 ==> buff[k] == 0
      modifies buff
      ensures buff[0] == 0 && buff[1] == 0 && buff[2] == 0
      ensures buff[3] == 0x06 && buff[4] == code && buff[5..10] == [addr] + SnBytes(sn) + [state]
    {
      hide SnByte;
      buff[3] := 0x06;
      buff[4] := code;
      buff[5] := addr;
      buff[6] := SnByte(sn, 16);
      buff[7] := SnByte(sn, 8);
      buff[8] := SnByte(sn, 0);
      buff[9] := state;
      ghost var bytes := SnBytes(sn);
      assert bytes == buff[6..9];
    }

    /** The answer to 0x02. */
    method ReplyPorts(addr: bv8, state: bv8)
      requires |eeprom| == 8
      modifies this`history
      ensures View() == old(View()).Transmit(0x02, [addr, state])
    {
      hide SnByte, Make, Pack, Decode;
      var buff := new bv8[8](_ => 0);
      buff[3] := 0x03;
      buff[4] := 0x02;
      buff[5] := addr;
      buff[6] := state;
      assert buff[5..7] == [addr, state];
      SendBuffer(buff);
    }

    /** The answer to 0x07. */
    method ReplySn(sn: bv32)
      requires |eeprom| == 8
      modifies this`history
      ensures View() == old(View()).Transmit(0x07, [0] + SnBytes(sn))
    {
      hide SnByte, Make, Pack, Decode;
      var buff := new bv8[10](_ => 0);
      buff[3] := 0x05;
      buff[4] := 0x07;
      buff[5] := 0x00;
      buff[6] := SnByte(sn, 16);
      buff[7] := SnByte(sn, 8);
      buff[8] := SnByte(sn, 0);
      assert buff[5..9] == [0] + SnBytes(sn);
      SendBuffer(buff);
    }

    /** The answer to 0x35 and to 0x32. */
    method ReplyRelay(addr: bv8, relay: bv8, result: bv8)
      requires |eeprom| == 8
      modifies this`history
      ensures View() == old(View()).Transmit(0x35, [0x03, addr, relay, result])
    {
      hide SnByte, Make, Pack, Decode;
      var buff := new bv8[10](_ => 0);
      buff[3] := 0x05;
      buff[4] := 0x35;
      buff[5] := 0x03;
      buff[6] := addr;
      buff[7] := relay;
      buff[8] := result;
      assert buff[5..9] == [0x03, addr, relay, result];
      SendBuffer(buff);
    }

    /** The answer to 0x33. */
    method ReplyDevice(lockType: bv8, addr: bv8, done: bool)
      requires |eeprom| == 8
      modifies this`history
      ensures View() == old(View()).Transmit(0x33, [lockType, addr, Verdict(done)])
    {
      hide SnByte, Make, Pack, Decode;
      var buff := new bv8[9](_ => 0);
      buff[3] := 0x04;
      buff[4] := 0x33;
      buff[5] := lockType;
      buff[6] := addr;
      buff[7] := if done then 0x10 else 0x01;
      assert buff[5..8] == [lockType, addr, Verdict(done)];
      SendBuffer(buff);
    }

    /** The answer to 0x2A: both timeouts before and after. */
    method ReplyTimeouts(addr: bv8, exec0: bv8, cmd0: bv8, exec1: bv8, cmd1: bv8)
      requires |eeprom| == 8
      modifies this`history
      ensures View() == old(View()).Transmit(0x2a, [addr, exec0, cmd0, exec1, cmd1])
    {
      hide SnByte, Make, Pack, Decode;
      var buff := new bv8[11](_ => 0);
      buff[3] := 0x06;
      buff[4] := 0x2a;
      buff[5] := addr;
      buff[6] := exec0;
      buff[7] := cmd0;
      buff[8] := exec1;
      buff[9] := cmd1;
      assert buff[5..10] == [addr, exec0, cmd0, exec1, cmd1];
      SendBuffer(buff);
    }

    /** 0x01 */
    method FuncYkQueryState(data: array<bv8>)
      requires Coherent() && data.Length == 16
      modifies this
      ensures Coherent() && View() == Handle(old(View()), env, YkQueryState, data[..])
    {
      hide Decode, Mirror, SnByte, PortState, LampState, RelayState, ResultByte, Make, Pack, Put, LockType, BigEndian, Get;
      var addr := GetAddr();
      var sn := GetSn();
      var state := QueryPorts();
      ReplyReport(0x01, addr, sn, state);
    }

    /** 0x02 */
    method FuncYkControl(data: array<bv8>)
      requires Coherent() && data.Length == 16
      modifies this
      ensures Coherent() && View() == Handle(old(View()), env, YkControl, data[..])
    {
      hide Decode, Mirror, SnByte, PortState, LampState, RelayState, ResultByte, Make, Pack, Put, LockType, BigEndian, Get;
      hide SetPorts;
      var port, opt := data[5], data[6];
      if opt == 0x00 {
        ControlPorts(port, false);
      } else {
        ControlPorts(port, true);
      }
      SetPortsEffect(old(View()), env, port, opt != 0);
      var addr := GetAddr();
      var state := QueryPorts();
      ReplyPorts(addr, state);
    }

    /** 0x03 */
    method FuncYkModifyAddr(data: array<bv8>)
      requires Coherent() && data.Length == 16
      modifies this
      ensures Coherent() && View() == Handle(old(View()), env, YkModifyAddr, data[..])
    {
      hide Decode, Mirror, SnByte, PortState, LampState, RelayState, ResultByte, Make, Pack, Put, LockType, BigEndian, Get;
      var addr := data[5];
      var sn := DecodeSn(data, 6);
      var stored := GetSn();
      if sn != stored {
        return;
      }
      var done := ConfigModify(Addr, Wide8(addr));
      Reset();
    }

    /** 0x04 */
    method FuncYkReportState(data: array<bv8>)
      requires Coherent() && data.Length == 16
      modifies this
      ensures Coherent() && View() == Handle(old(View()), env, YkReportState, data[..])
    {
      hide Decode, Mirror, SnByte, PortState, LampState, RelayState, ResultByte, Make, Pack, Put, LockType, BigEndian, Get;
      var addr := GetAddr();
      var sn := GetSn();
      var state := QueryPorts();
      ReplyReport(0x04, addr, sn, state);
    }

    /** 0x07 */
    method FuncYkModifySn(data: array<bv8>)
      requires Coherent() && data.Length == 16
      modifies this
      ensures Coherent() && View() == Handle(old(View()), env, YkModifySn, data[..])
    {
      hide Decode, Mirror, SnByte, PortState, LampState, RelayState, ResultByte, Make, Pack, Put, LockType, BigEndian, Get;
      var sn := DecodeSn(data, 6);
      var done := AdoptSerial(sn, YK_LOCK);
      sn := GetSn();
      ReplySn(sn);
    }

    /** 0x31 */
    method FuncAvcQueryState(data: array<bv8>)
      requires Coherent() && data.Length == 16
      modifies this
      ensures Coherent() && View() == Handle(old(View()), env, AvcQueryState, data[..])
    {
      hide Decode, Mirror, SnByte, PortState, LampState, RelayState, ResultByte, Make, Pack, Put, LockType, BigEndian, Get;
      var addr := GetAddr();
      var sn := GetSn();
      var state := QueryLamps();
      ReplyReport(0x31, addr, sn, state);
    }

    /** 0x35 */
    method FuncAvcControlCommand(data: array<bv8>)
      requires Coherent() && data.Length == 16
      modifies this
      ensures Coherent() && View() == Handle(old(View()), env, AvcControlCommand, data[..])
    {
      hide Decode, Mirror, SnByte, PortState, LampState, RelayState, ResultByte, Make, Pack, Put, LockType, BigEndian, Get;
      hide SetRelay;
      var opt := data[5];
      if opt == 0x10 {
        ControlSwitch(true);
      } else if opt == 0x01 {
        ControlSwitch(false);
      } else {
        return;
      }
      var addr := GetAddr();
      var relay := QueryRelay();
      var result := QueryResult();
      ReplyRelay(addr, relay, result);
    }

    /** 0x32 */
    method FuncAvcControlRequest(data: array<bv8>)
      requires Coherent() && data.Length == 16
      modifies this
      ensures Coherent() && View() == Handle(old(View()), env, AvcControlRequest, data[..])
    {
      hide Decode, Mirror, SnByte, PortState, LampState, RelayState, ResultByte, Make, Pack, Put, LockType, BigEndian, Get;
      hide SetRelay;
      var answer, opt := data[5], data[6];
      if answer == 0x10 {
        if opt == 0x10 {
          ControlSwitch(true);
        } else if opt == 0x01 {
          ControlSwitch(false);
        } else {
          return;
        }
      } else {
        return;
      }
      ControlSwitch(true);
      var addr := GetAddr();
      var relay := QueryRelay();
      var result := QueryResult();
      ReplyRelay(addr, relay, result);
    }

    /** The guarded double write of 0x33. */
    method TryChangeDevice(data: array<bv8>) returns (result: bool)
      requires Coherent() && data.Length == 16
      modifies this`eeprom, this`previous, this`history, this`ram, this`info
      ensures Coherent() && (View(), result) == ChangeDevice(old(View()), env, data[..])
    {
      hide Decode, Mirror, Put, BigEndian, Get, Wide8;
      var devType, addr := data[1], data[2];
      var sn := DecodeSn(data, 3);
      result := false;
      var stored := GetSn();
      if sn == stored {
        var typed := ConfigModify(DeviceType, Wide8(devType));
        if typed {
          result := ConfigModify(Addr, Wide8(addr));
        }
      }
    }

    /** 0x33 */
    method FuncAvcModifyDevice(data: array<bv8>)
      requires Coherent() && data.Length == 16
      modifies this
      ensures Coherent() && View() == Handle(old(View()), env, AvcModifyDevice, data[..])
    {
      hide Decode, Mirror, SnByte, PortState, LampState, RelayState, ResultByte, Make, Pack, Put, LockType, BigEndian, Get;
      hide ChangeDevice;
      var result := TryChangeDevice(data);
      var lockType := GetDevice();
      var own := GetAddr();
      ReplyDevice(lockType, own, result);
    }

    /** 0x37 */
    method FuncAvcModifySn(data: array<bv8>)
      requires Coherent() && data.Length == 16
      modifies this
      ensures Coherent() && View() == Handle(old(View()), env, AvcModifySn, data[..])
    {
      hide Decode, Mirror, SnByte, PortState, LampState, RelayState, ResultByte, Make, Pack, Put, LockType, BigEndian, Get;
      var sn := DecodeSn(data, 6);
      var done := AdoptSerial(sn, AVC_SWITCH);
      var addr := GetAddr();
      sn := GetSn();
      ReplyReport(0x37, addr, sn, if done then 0x10 else 0x01);
    }

    /** 0x3F, answered as 0x31 */
    method FuncAvcProductionQuery(data: array<bv8>)
      requires Coherent() && data.Length == 16
      modifies this
      ensures Coherent() && View() == Handle(old(View()), env, AvcProductionQuery, data[..])
    {
      hide Decode, Mirror, SnByte, PortState, LampState, RelayState, ResultByte, Make, Pack, Put, LockType, BigEndian, Get;
      var addr := GetAddr();
      var sn := GetSn();
      var state := QueryLamps();
      ReplyReport(0x31, addr, sn, state);
    }

    /** 0x21; the cold-lock state is always zero */
    method FuncColdQueryAll(data: array<bv8>)
      requires Coherent() && data.Length == 16
      modifies this
      ensures Coherent() && View() == Handle(old(View()), env, ColdQueryAll, data[..])
    {
      hide Decode, Mirror, SnByte, PortState, LampState, RelayState, ResultByte, Make, Pack, Put, LockType, BigEndian, Get;
      var addr := GetAddr();
      var sn := GetSn();
      var state := 0x00;
      ReplyReport(0x21, addr, sn, state);
    }

    /** 0x25; switching the cold lock has no effect in the source */
    method FuncColdControl(data: array<bv8>)
      requires Coherent() && data.Length == 16
      modifies this
      ensures Coherent() && View() == Handle(old(View()), env, ColdControl, data[..])
    {
      hide Decode, Mirror, SnByte, PortState, LampState, RelayState, ResultByte, Make, Pack, Put, LockType, BigEndian, Get;
      var addr := GetAddr();
      var sn := GetSn();
      var state := 0x00;
      ReplyReport(0x25, addr, sn, state);
    }

    /** The two writes of 0x2A. */
    method ModifyTimeouts(exec: bv8, cmd: bv8)
      requires Coherent()
      modifies this`eeprom, this`previous, this`history, this`ram, this`info
      ensures Coherent()
      ensures View() == Modify(Modify(old(View()), env, TimeoutExec, Wide8(exec)).0, env, TimeoutCmd, Wide8(cmd)).0
    {
      hide Decode, Mirror, Put, Wide8;
      var done := ConfigModify(TimeoutExec, Wide8(exec));
      done := ConfigModify(TimeoutCmd, Wide8(cmd));
    }

    /** 0x2A */
    method FuncColdModifyTimeout(data: array<bv8>)
      requires Coherent() && data.Length == 16
      modifies this
      ensures Coherent() && View() == Handle(old(View()), env, ColdModifyTimeout, data[..])
    {
      hide Decode, Mirror, Make, Pack, Put, Wide8, Modify;
      var execBefore := GetTimeout(TimeoutExec);
      var cmdBefore := GetTimeout(TimeoutCmd);
      ModifyTimeouts(data[5], data[6]);
      var execAfter := GetTimeout(TimeoutExec);
      var cmdAfter := GetTimeout(TimeoutCmd);
      var addr := GetAddr();
      ReplyTimeouts(addr, execBefore, cmdBefore, execAfter, cmdAfter);
    }

    method GetTimeout(key: Key) returns (timeout: bv8)
      requires |eeprom| == 8 && |previous| == 8 && (key.TimeoutExec? || key.TimeoutCmd?)
      modifies this`ram
      ensures ram == Decode(eeprom) && timeout == (if key.TimeoutExec? then ram.timeoutExec else ram.timeoutCmd)
    {
      hide Decode;
      var v := ConfigGet(key, false);
      WideLow(ram.timeoutExec);
      WideLow(ram.timeoutCmd);
      timeout := Low8(v);
    }

    /** 0x23 */
    method FuncColdModifyAddr(data: array<bv8>)
      requires Coherent() && data.Length == 16
      modifies this
      ensures Coherent() && View() == Handle(old(View()), env, ColdModifyAddr, data[..])
    {
      hide Decode, Mirror, SnByte, PortState, LampState, RelayState, ResultByte, Make, Pack, Put, LockType, BigEndian, Get;
      hide Wide8;
      var addr := data[5];
      var sn := DecodeSn(data, 6);
      var stored := GetSn();
      if sn == stored {
        var done := ConfigModify(Addr, Wide8(addr));
      }
      var own := GetAddr();
      ReplyReport(0x23, own, sn, 0x00);
    }

    /** 0x27 */
    method FuncColdModifySn(data: array<bv8>)
      requires Coherent() && data.Length == 16
      modifies this
      ensures Coherent() && View() == Handle(old(View()), env, ColdModifySn, data[..])
    {
    }

    /** 0x2F */
    method FuncColdProductionQuery(data: array<bv8>)
      requires Coherent() && data.Length == 16
      modifies this
      ensures Coherent() && View() == Handle(old(View()), env, ColdProductionQuery, data[..])
    {
    }

    /** Three received bytes, most significant first. */
    static method DecodeSn(data: array<bv8>, i: nat) returns (sn: bv32)
      requires data.Length == 16 && i <= 13
      ensures sn == SnAt(data[..], i)
    {
      sn := 0;
      sn := sn + ((data[i] as bv32) << 16);
      sn := sn + ((data[i + 1] as bv32) << 8);
      sn := sn + (data[i + 2] as bv32);
    }

    /** The first half of 0x07 and 0x37: store the serial number, then adopt the type if it differs. */
    method AdoptSerial(sn: bv32, wanted: bv8) returns (done: bool)
      requires Coherent()
      modifies this`eeprom, this`previous, this`history, this`ram, this`info
      ensures Coherent() && (View(), done) == AdoptSn(old(View()), env, sn, wanted)
    {
      hide Decode, Put, Get, LockType, DeviceId, Wide8;
      done := ConfigModify(Sn, sn);
      if info.hardware == HwAvcSwitch && info.lockType != wanted {
        var typed := ConfigModify(DeviceType, Wide8(wanted));
      }
    }

    /** protocol_handler: calls through the dispatch array. */
    method Dispatch(index: nat, data: array<bv8>)
      requires Coherent() && data.Length == 16 && index < |HANDLERS|
      modifies this
      ensures Coherent() && View() == Handle(old(View()), env, HANDLERS[index], data[..])
    {
      hide Handle, Decode, Mirror;
      match HANDLERS[index] {
        case YkQueryState => FuncYkQueryState(data);
        case YkControl => FuncYkControl(data);
        case YkModifyAddr => FuncYkModifyAddr(data);
        case YkReportState => FuncYkReportState(data);
        case YkModifySn => FuncYkModifySn(data);
        case AvcQueryState => FuncAvcQueryState(data);
        case AvcControlCommand => FuncAvcControlCommand(data);
        case AvcControlRequest => FuncAvcControlRequest(data);
        case AvcModifyDevice => FuncAvcModifyDevice(data);
        case AvcModifySn => FuncAvcModifySn(data);
        case AvcProductionQuery => FuncAvcProductionQuery(data);
        case ColdQueryAll => FuncColdQueryAll(data);
        case ColdControl => FuncColdControl(data);
        case ColdModifyTimeout => FuncColdModifyTimeout(data);
        case ColdModifyAddr => FuncColdModifyAddr(data);
        case ColdModifySn => FuncColdModifySn(data);
        case ColdProductionQuery => FuncColdProductionQuery(data);
      }
    }

    // -------------------------------------------------------------- main.c

    /** The controller drops what its filter does not pass; the receive thread calls back for the rest. */
    method Deliver(msg: CanMsg)
      requires Coherent() && msg.Valid()
      modifies this
      ensures Coherent() && View() == Receive(old(View()), env, msg)
    {
      hide Handle, Takes;
      if filter.Passes(msg) {
        RxCallback(msg);
      }
    }

    /** rx_cb: the message is read into a 16-byte stack buffer, parsed and handled. */
    method RxCallback(msg: CanMsg)
      requires Coherent() && msg.Valid() && filter.Passes(msg)
      modifies this
      ensures Coherent() && View() == Receive(old(View()), env, msg)
    {
      hide Decode, Handle, Accepts, Seen, LockType, DeviceId, Filter.Passes;
      var garbage := env.stack(history);
      var buff := new bv8[16](i requires 0 <= i < 16 => garbage[i]);
      var size := CanChannel.Read(msg, env.beyond(history), buff, msg.len + 3);
      assert buff[..] == buff[..size] + buff[size..] == Received(env, history, msg);
      if table.NoTable? {
        history := Then(history, Fault);
        return;
      }
      var index := Parse(buff, size, info.devId, table);
      assert forall h :: Takes(View(), env, msg, h) <==> Accepts(buff[..], size, info.devId, table, h);
      if index == -1 {
        return;
      }
      assert Takes(View(), env, msg, HANDLERS[index]);
      OneHandler(View(), env, msg, HANDLERS[index], Chosen(View(), env, msg).value);
      Dispatch(index, buff);
    }

    /** thread_btn_press */
    method ButtonPress()
      requires Coherent()
      modifies this
      ensures Coherent() && View() == Press(old(View()), env)
    {
      hide Decode, Make, Pack, LockType;
      if info.lockType != AVC_SWITCH {
        return;
      }
      var addr := GetAddr();
      var contact := RelayCheck();
      var buff := new bv8[8](_ => 0);
      buff[3] := 0x03;
      buff[4] := 0x32;
      buff[5] := addr;
      buff[6] := if contact then 0x01 else 0x10;
      assert buff[5..7] == [addr, if contact then 0x01 else 0x10];
      SendBuffer(buff);
    }

    /** Any run of messages, button presses and resets: the caches stay coherent with the EEPROM, and
        the firmware does exactly what the device model does. */
    method RunInputs(inputs: seq<Input>)
      requires Coherent() && ValidInputs(inputs)
      modifies this
      ensures Coherent() && View() == Machine.Run(old(View()), env, inputs)
    {
      hide Decode, Mirror, Receive, Press, Boot;
      for i := 0 to |inputs|
        invariant Coherent()
        invariant View() == Machine.Run(old(View()), env, inputs[..i])
      {
        assert ValidInput(inputs[i]);
        assert inputs[..i + 1][..i] == inputs[..i];
        match inputs[i] {
          case Message(msg) => Deliver(msg);
          case Button => ButtonPress();
          case PowerCycle => Reset();
        }
      }
      assert inputs[..|inputs|] == inputs;
    }

    /** Any run of store requests keeps the RAM copy equal to the EEPROM and refines the six-key map: a
        get returns what the map holds, a successful write updates one key, a failed one nothing. The
        environment decides which writes succeed. */
    method RunRequests(requests: seq<Request>) returns (log: seq<Request>)
      requires Coherent()
      modifies this
      ensures Coherent()
      ensures |log| == |requests| && forall i :: 0 <= i < |log| ==> SameRequest(requests[i], log[i])
      ensures AsMap(View().store) == Apply(old(AsMap(View().store)), log)
      ensures Truthful(old(AsMap(View().store)), log)
    {
      hide Decode, Mirror, AsMap, Get, Put, Truncated, Apply;
      ghost var m := AsMap(View().store);
      log := [];
      ApplyNothing(m);
      for i := 0 to |requests|
        invariant Coherent() && |log| == i
        invariant forall k :: 0 <= k < i ==> SameRequest(requests[k], log[k])
        invariant AsMap(View().store) == Apply(m, log) && Truthful(m, log)
      {
        ghost var store := View().store;
        var entry: Request;
        match requests[i] {
          case Fetch(key, _) =>
            var v := ConfigGet(key, false);
            entry := Fetch(key, v);
            MapHolds(store, key);
          case Change(key, value, _) =>
            var written := ConfigModify(key, value);
            PutIsMapUpdate(store, key, value);
            entry := Change(key, value, written);
        }
        LogGrows(m, log, entry);
        log := log + [entry];
      }
    }
  }

  lemma AwaitOnce(d: Device, env: Environment, wanted: bool, n: nat)
    requires n > 0
    ensures var (e, level) := ReadContact(d, env);
            && Await(d, env, wanted, n) == (if level == wanted then e else Await(e.Wait(1), env, wanted, n - 1))
            && Await(d, env, wanted, 0) == d
  {
  }

  /** Saving does not look at the result flags. */
  lemma SaveKeepsFlags(d: Device, env: Environment, closed: bool, f: Flags)
    ensures var (e, saved) := SaveRelay(d, env, closed);
            SaveRelay(d.(flags := f), env, closed) == (e.(flags := f), saved)
  {
    hide AwaitVisible, Put, Wide8, StateByte;
    AwaitKeepsFlags(Modify(d, env, SwitchState, Wide8(StateByte(closed))).0, env, SAVE_POLLS, f);
  }

  lemma {:induction false} AwaitKeepsFlags(d: Device, env: Environment, n: nat, f: Flags)
    ensures var (e, seen) := AwaitVisible(d, env, n);
            AwaitVisible(d.(flags := f), env, n) == (e.(flags := f), seen)
    decreases n
  {
    if n > 0 && !env.visible(d.history) {
      AwaitKeepsFlags(d.Wait(1), env, n - 1, f);
    }
  }

  lemma WideStates(b: bv8, closed: bool)
    ensures Wide8(b) == Wide8(StateByte(closed)) <==> b == StateByte(closed)
  {
  }

  lemma WideLow(b: bv8)
    ensures Low8(Wide8(b)) == b
  {
  }
}
