/** What the 0x33 command can do, and on which devices it can be obeyed at all. */
module DeviceChange {
  import opened Config
  import opened Crc8
  import opened ErrorDetection
  import opened Frame
  import opened CanChannel
  import opened Filter
  import opened Device
  import opened Protocol
  import opened Commands
  import opened CommandProofs
  import opened Machine
  import opened Runs

  /** The message reaches the 0x33 handler and presents the stored serial number. */
  ghost predicate Obeyed(d: Device, env: Environment, msg: CanMsg)
    requires msg.Valid()
  {
    Takes(d, env, msg, AvcModifyDevice) && Presents(AvcModifyDevice, Received(env, d.history, msg), d.store)
  }

  /** Some message makes this device obey 0x33. */
  ghost predicate Obeyable(d: Device, env: Environment) {
    exists msg: CanMsg :: msg.Valid() && Obeyed(d, env, msg)
  }

  // --------------------------------------------------------------- the effect

  /** Type and address come from header bytes that the filter fixes: whatever 0x33 is sent, the only
      change it can make is to turn the device into a YK lock, and if obeyed with a working EEPROM it does. */
  lemma OnlyMakesYkLock(d: Device, env: Environment, msg: CanMsg)
    requires msg.Valid() && Sound(d) && d.table.AvcSwitchTable? && Takes(d, env, msg, AvcModifyDevice)
    ensures var e := Receive(d, env, msg);
            && (e.store == d.store || (Obeyed(d, env, msg) && e.store == d.store.(devType := YK_LOCK)))
            && (Obeyed(d, env, msg) && (forall g :: env.written(g)) ==> e.store == d.store.(devType := YK_LOCK))
  {
    var data := Received(env, d.history, msg);
    KnownCommand(d, env, msg, AvcModifyDevice);
    HeardHeader(d, env, msg);
    TakenIsHandled(d, env, msg, AvcModifyDevice);
    hide Takes, Receive, Handle, Received, Filter.Passes, Sound, Get, SnAt;
    HandleEffect(d, env, AvcModifyDevice, data);
    ChangeWrites(d, env, data);
  }

  lemma ChangeWrites(d: Device, env: Environment, data: Buffer)
    requires data[1] == 0 && data[2] == d.store.addr
    ensures var e := React(d, env, AvcModifyDevice, data).0;
            var presents := Presents(AvcModifyDevice, data, d.store);
            && (e.store == d.store || (presents && e.store == d.store.(devType := YK_LOCK)))
            && (presents && (forall g :: env.written(g)) ==> e.store == d.store.(devType := YK_LOCK))
  {
    hide Get, SnAt, Put, Wide8;
    PutFields(d.store, DeviceType, data[1]);
    PutFields(d.store.(devType := data[1]), Addr, data[2]);
  }

  // ------------------------------------------------------------ the condition

  /** The handler compares the frame's length byte, its function code and the byte after them. So the
      serial number must overlap them, with a top byte of at most 11. A top byte of 1 is a six-byte
      frame, whose third compared byte is its own checksum. A top byte of 0 is a five-byte frame, whose
      function code is its checksum and whose third compared byte is what the buffer held before. */
  predicate Matchable(sn: bv32, id: bv8, addr: bv8, oldByte: bv8) {
    && Overlaps(sn)
    && (SnByte(sn, 16) == 0 ==> oldByte == SnByte(sn, 0) && Checksum([id, 0, addr, 0]) == 0x33)
    && (SnByte(sn, 16) == 1 ==> Checksum([id, 0, addr, 1, 0x33]) == SnByte(sn, 0))
  }

  lemma SplitSn(sn: bv32)
    requires Overlaps(sn)
    ensures SnByte(sn, 16) <= 11 && sn == BigEndian(SnByte(sn, 16), 0x33, SnByte(sn, 0))
  {
  }

  lemma JoinedSn(b0: bv8, b2: bv8)
    ensures SnByte(BigEndian(b0, 0x33, b2), 16) == b0 && SnByte(BigEndian(b0, 0x33, b2), 0) == b2
  {
  }

  /** The device id is one the filter lets through. */
  lemma OwnIdHeard(d: Device, env: Environment)
    requires Sound(d) && d.table.AvcSwitchTable?
    ensures OwnId(d, env) == YK_ID || OwnId(d, env) == SWITCH_ID
  {
    hide FilterFor;
  }

  lemma ObeyedFacts(d: Device, env: Environment, msg: CanMsg)
    requires msg.Valid() && Sound(d) && d.table.AvcSwitchTable? && Obeyed(d, env, msg)
    ensures var data := Received(env, d.history, msg);
            && data[0] == OwnId(d, env) && data[1] == 0 && data[2] == d.store.addr && data[4] == 0x33
            && CrcOk(data[..msg.len + 3]) && LengthField(data[3], msg.len + 3)
            && Get(d.store, Sn) == BigEndian(data[3], 0x33, data[5])
            && (msg.len == 2 ==> data[5] == env.stack(d.history)[5])
  {
    HeardHeader(d, env, msg);
    hide Sound, OwnId, CrcOk, BigEndian, Get, Filter.Passes, Knows, LengthField, Seen;
  }

  lemma ObeyedNeedsMatch(d: Device, env: Environment, msg: CanMsg)
    requires msg.Valid() && Sound(d) && d.table.AvcSwitchTable? && Obeyed(d, env, msg)
    ensures Matchable(Get(d.store, Sn), OwnId(d, env), d.store.addr, env.stack(d.history)[5])
  {
    var data, len, id := Received(env, d.history, msg), msg.len + 3, OwnId(d, env);
    hide Received, Sound, OwnId, Checksum, CrcOk, Overlaps, SnByte, BigEndian, Get, Takes, LengthField;
    ObeyedFacts(d, env, msg);
    TakesOverlap(d, env, msg);
    JoinedSn(data[3], data[5]);
    ShortFrames(data, len, id, d.store.addr);
  }

  lemma TakesOverlap(d: Device, env: Environment, msg: CanMsg)
    requires msg.Valid() && Obeyed(d, env, msg)
    ensures Overlaps(Get(d.store, Sn))
  {
    hide Received, OwnId, Accepts, Overlaps, Get, Presents, Filter.Passes;
    DeviceChangeNeedsOverlap(Received(env, d.history, msg), msg.len + 3, OwnId(d, env), d.table, d.store);
  }

  /** What the checksum test says about frames of five and six bytes with this header. */
  lemma ShortFrames(data: Buffer, len: nat, id: bv8, addr: bv8)
    requires 1 <= len <= 16 && CrcOk(data[..len]) && LengthField(data[3], len)
    requires data[0] == id && data[1] == 0 && data[2] == addr && data[4] == 0x33
    ensures data[3] == 0 <==> len == 5
    ensures len == 5 ==> Checksum([id, 0, addr, 0]) == 0x33
    ensures data[3] == 1 ==> Checksum([id, 0, addr, 1, 0x33]) == data[5]
  {
    CrcTest(data, len);
    assert data[..4] == [data[0], data[1], data[2], data[3]];
    assert data[..5] == [data[0], data[1], data[2], data[3], data[4]];
    hide Checksum, CrcOk;
  }

  // ------------------------------------------------------- messages that match

  lemma ComparedBytes(d: Device, env: Environment, msg: CanMsg, top: bv8, low: bv8)
    requires msg.Valid() && Takes(d, env, msg, AvcModifyDevice)
    requires Get(d.store, Sn) == BigEndian(top, 0x33, low)
    requires var data := Received(env, d.history, msg); data[3] == top && data[4] == 0x33 && data[5] == low
    ensures Obeyed(d, env, msg)
  {
    hide Takes, Received, BigEndian, Get;
  }

  /** A packed frame with the device's own header is obeyed if it carries the compared bytes. */
  lemma FrameObeyed(d: Device, env: Environment, frame: seq<bv8>, top: bv8, low: bv8)
    requires Sound(d) && d.table.AvcSwitchTable? && 5 <= |frame| <= 11
    requires Get(d.store, Sn) == BigEndian(top, 0x33, low)
    requires frame[0] == OwnId(d, env) && frame[1] == 0 && frame[2] == d.store.addr
    requires frame[3] == top && frame[4] == 0x33 && CrcOk(frame) && LengthField(frame[3], |frame|)
    requires (if |frame| == 5 then env.stack(d.history)[5] else frame[5]) == low
    ensures Obeyed(d, env, Pack(frame))
  {
    OwnIdHeard(d, env);
    PackPasses(frame, d.store.addr, false);
    hide CrcOk, LengthField, Pack, Received, Takes, OwnId, BigEndian, Get, Obeyed, FilterFor, Filter.Passes;
    PackedTaken(d, env, frame, AvcModifyDevice);
    ComparedBytes(d, env, Pack(frame), top, low);
  }

  lemma ShortMessage(d: Device, env: Environment, top: bv8, low: bv8) returns (msg: CanMsg)
    requires Sound(d) && d.table.AvcSwitchTable? && Get(d.store, Sn) == BigEndian(top, 0x33, low)
    requires top == 0 ==> env.stack(d.history)[5] == low && Checksum([OwnId(d, env), 0, d.store.addr, 0]) == 0x33
    requires top == 1 ==> Checksum([OwnId(d, env), 0, d.store.addr, 1, 0x33]) == low
    requires top <= 1
    ensures msg.Valid() && Obeyed(d, env, msg)
  {
    var header := [OwnId(d, env), 0, d.store.addr];
    var frame := if top == 0 then header + [0, 0x33] else header + [1, 0x33, low];
    assert top == 0 ==> frame[..4] == [OwnId(d, env), 0, d.store.addr, 0];
    assert top == 1 ==> frame[..5] == [OwnId(d, env), 0, d.store.addr, 1, 0x33];
    hide Sound, OwnId, Checksum, BigEndian, Get, Obeyed, Pack;
    FrameObeyed(d, env, frame, top, low);
    msg := Pack(frame);
  }

  lemma PlainMessage(d: Device, env: Environment, top: bv8, low: bv8) returns (msg: CanMsg)
    requires Sound(d) && d.table.AvcSwitchTable? && Get(d.store, Sn) == BigEndian(top, 0x33, low)
    requires 2 <= top <= 6
    ensures msg.Valid() && Obeyed(d, env, msg)
  {
    var header := [OwnId(d, env), 0, d.store.addr];
    var payload := [low] + seq(top as int - 2, _ => 0);
    var frame := Make(header, 0x33, payload);
    MakeWellFormed(header, 0x33, payload);
    assert frame[..3][0] == header[0] && frame[..3][1] == header[1] && frame[..3][2] == header[2];
    assert frame[5] == low && frame[3] == top;
    hide Make, Sound, OwnId, BigEndian, Get, Obeyed, Pack, CrcOk;
    FrameObeyed(d, env, frame, top, low);
    msg := Pack(frame);
  }

  /** A length code above 8: the frame continues in memory behind the data array, and one data byte is
      chosen so that its last byte there is its checksum. */
  lemma OverlongMessage(d: Device, env: Environment, top: bv8, low: bv8) returns (msg: CanMsg)
    requires Sound(d) && d.table.AvcSwitchTable? && Get(d.store, Sn) == BigEndian(top, 0x33, low)
    requires 7 <= top <= 11
    ensures msg.Valid() && Obeyed(d, env, msg)
  {
    var id, addr, beyond, n := OwnId(d, env), d.store.addr, env.beyond(d.history), top as int - 7;
    var prefix, suffix := [id, 0, addr, top, 0x33, low], [0, 0, 0, 0] + beyond[..n];
    var b := Choice(prefix, suffix, beyond[n] ^ 0xff);
    msg := CanMsg(Identifier(id, 0, addr), true, false, top as int + 2, [top, 0x33, low, b, 0, 0, 0, 0]);
    hide Sound, OwnId, BigEndian, Get, Obeyed, Takes, Identifier, Received, Register, Choice, Filter.Passes, FilterFor,
         CrcOk;
    OwnHeaderPasses(d, env, msg);
    FreeByte(prefix, suffix, beyond[n] ^ 0xff, b);
    OverlongFrame(d, env, msg, top, low, b);
    OwnFrameTaken(d, env, msg);
    ComparedBytes(d, env, msg, top, low);
  }

  lemma OverlongFrame(d: Device, env: Environment, msg: CanMsg, top: bv8, low: bv8, b: bv8)
    requires 7 <= top <= 11 && msg.len == top as int + 2 && msg.data == [top, 0x33, low, b, 0, 0, 0, 0]
    requires msg.id == Identifier(OwnId(d, env), 0, d.store.addr)
    requires var beyond, n := env.beyond(d.history), top as int - 7;
             Register(0, [OwnId(d, env), 0, d.store.addr, top, 0x33, low] + [b] + ([0, 0, 0, 0] + beyond[..n]))
             == beyond[n] ^ 0xff
    ensures var data := Received(env, d.history, msg);
            && CrcOk(data[..msg.len + 3])
            && data[0] == OwnId(d, env) && data[3] == top && data[4] == 0x33 && data[5] == low
  {
    var id, addr, beyond, n := OwnId(d, env), d.store.addr, env.beyond(d.history), top as int - 7;
    var prefix, suffix := [id, 0, addr, top, 0x33, low], [0, 0, 0, 0] + beyond[..n];
    hide OwnId, Identifier, Received, Register, CrcOk;
    OverlongBytes(d, env, msg, top, low, b);
    Regroup(prefix + [b], [0, 0, 0, 0], beyond, n);
    OverlongCrc(Received(env, d.history, msg), prefix, b, suffix, beyond[n]);
  }

  lemma OwnHeaderPasses(d: Device, env: Environment, msg: CanMsg)
    requires Sound(d) && d.table.AvcSwitchTable? && msg.extended && !msg.remote
    requires msg.id == Identifier(OwnId(d, env), 0, d.store.addr)
    ensures d.filter.Passes(msg)
  {
    OwnIdHeard(d, env);
    hide OwnId, Identifier, IdByte, FilterFor, Filter.Passes;
    PassesExact(d.store.addr, false, msg);
    IdentifierBytes(OwnId(d, env), 0, d.store.addr);
  }

  lemma OwnFrameTaken(d: Device, env: Environment, msg: CanMsg)
    requires msg.Valid() && d.table.AvcSwitchTable? && d.filter.Passes(msg)
    requires var data := Received(env, d.history, msg);
             && CrcOk(data[..msg.len + 3]) && LengthField(data[3], msg.len + 3)
             && data[0] == OwnId(d, env) && data[4] == 0x33
    ensures Takes(d, env, msg, AvcModifyDevice)
  {
    hide CrcOk, LengthField, Received, OwnId, Filter.Passes;
  }

  lemma Regroup(front: seq<bv8>, middle: seq<bv8>, back: seq<bv8>, n: nat)
    requires n < |back|
    ensures front + middle + back[..n + 1] == front + (middle + back[..n]) + [back[n]]
  {
  }

  lemma OverlongBytes(d: Device, env: Environment, msg: CanMsg, top: bv8, low: bv8, b: bv8)
    requires 7 <= top <= 11 && msg.len == top as int + 2 && msg.data == [top, 0x33, low, b, 0, 0, 0, 0]
    requires msg.id == Identifier(OwnId(d, env), 0, d.store.addr)
    ensures var data, beyond, n := Received(env, d.history, msg), env.beyond(d.history), top as int - 7;
            && data[..n + 12] == [OwnId(d, env), 0, d.store.addr, top, 0x33, low] + [b] + [0, 0, 0, 0] + beyond[..n + 1]
            && data[0] == OwnId(d, env) && data[3] == top && data[4] == 0x33 && data[5] == low
  {
    var n, beyond := top as int - 7, env.beyond(d.history);
    hide Identifier, IdByte, OwnId, Received;
    IdentifierBytes(OwnId(d, env), 0, d.store.addr);
    OverlongFront(d, env, msg, n);
    var front: seq<bv8> := [OwnId(d, env), 0, d.store.addr];
    assert front + msg.data
        == [OwnId(d, env), 0, d.store.addr, top, 0x33, low] + [b] + [0, 0, 0, 0];
  }

  /** The part of a message that lies behind its data array. */
  lemma OverlongFront(d: Device, env: Environment, msg: CanMsg, n: nat)
    requires msg.Valid() && n < 5 && msg.len == n + 9
    ensures var data, head := Received(env, d.history, msg), [IdByte(msg.id, 16), IdByte(msg.id, 8), IdByte(msg.id, 0)];
            && data[..n + 12] == head + msg.data + env.beyond(d.history)[..n + 1]
            && data[0] == head[0] && data[3] == msg.data[0] && data[4] == msg.data[1] && data[5] == msg.data[2]
  {
    hide IdByte;
    var data := Received(env, d.history, msg);
    var seen := Seen(msg, env.beyond(d.history));
    assert data[..n + 12] == seen[..n + 12];
  }

  lemma OverlongCrc(data: Buffer, prefix: seq<bv8>, b: bv8, suffix: seq<bv8>, last: bv8)
    requires |prefix| + |suffix| + 2 <= 16
    requires data[..|prefix| + |suffix| + 2] == prefix + [b] + suffix + [last]
    requires Register(0, prefix + [b] + suffix) == last ^ 0xff
    ensures CrcOk(data[..|prefix| + |suffix| + 2])
  {
    var frame := prefix + [b] + suffix + [last];
    assert frame[..|frame| - 1] == prefix + [b] + suffix;
    PlusTwice(0xff, last);
    hide Register;
  }

  /** In every reachable state: some message makes 0x33 pass its serial number check exactly if the AVC
      switch table is loaded and the stored serial number fits. */
  lemma DeviceChangeExact(d: Device, env: Environment)
    requires Sound(d)
    ensures Obeyable(d, env)
       <==> && d.table.AvcSwitchTable?
            && Matchable(Get(d.store, Sn), OwnId(d, env), d.store.addr, env.stack(d.history)[5])
  {
    var sn := Get(d.store, Sn);
    if Obeyable(d, env) {
      hide Get, Obeyed, Matchable, Sound;
      var msg: CanMsg :| msg.Valid() && Obeyed(d, env, msg);
      ObeyedTable(d, env, msg);
      ObeyedNeedsMatch(d, env, msg);
    } else if d.table.AvcSwitchTable? && Matchable(sn, OwnId(d, env), d.store.addr, env.stack(d.history)[5]) {
      SplitSn(sn);
      hide Get, Overlaps, SnByte, Obeyed, BigEndian, Sound, OwnId, Checksum;
      var top, low := SnByte(sn, 16), SnByte(sn, 0);
      var msg;
      if top <= 1 {
        msg := ShortMessage(d, env, top, low);
      } else if top <= 6 {
        msg := PlainMessage(d, env, top, low);
      } else {
        msg := OverlongMessage(d, env, top, low);
      }
    }
  }

  lemma ObeyedTable(d: Device, env: Environment, msg: CanMsg)
    requires msg.Valid() && Obeyed(d, env, msg)
    ensures d.table.AvcSwitchTable?
  {
    KnownCommand(d, env, msg, AvcModifyDevice);
  }
}
