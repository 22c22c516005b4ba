/** Packing of frames into extended CAN data frames (bsp/can_channel.c). */
module CanChannel {
  import opened Frame

  /** A CAN message: a 29-bit identifier, an eight-byte data array and the length code. A sender may put
      any four-bit length code on the bus, and the controller's driver passes it on unchanged. */
  datatype CanMsg = CanMsg(id: bv29, extended: bool, remote: bool, len: nat, data: seq<bv8>) {

    /** Fits the 16-byte receive buffer of rx_cb. */
    ghost predicate Valid() {
      len <= 13 && |data| == 8
    }

    /** The length code is the number of data bytes. */
    ghost predicate Short() {
      len <= 8 && |data| == 8
    }
  }

  /** The five bytes that follow the data array in memory. */
  type Tail = t: seq<bv8> | |t| == 5 witness [0, 0, 0, 0, 0]

  function Identifier(b0: bv8, b1: bv8, b2: bv8): bv29 {
    ((b0 as bv29) << 16) + ((b1 as bv29) << 8) + (b2 as bv29)
  }

  function IdByte(id: bv29, shift: nat): bv8
    requires shift <= 16
  {
    ((id >> shift) & 0xff) as bv8
  }

  function Padded(data: seq<bv8>): (p: seq<bv8>)
    requires |data| <= 8
    ensures |p| == 8 && data <= p && forall i :: |data| <= i < 8 ==> p[i] == 0
  {
    data + seq(8 - |data|, i => 0)
  }

  /** The message that carries a frame. */
  function Pack(frame: seq<bv8>): (msg: CanMsg)
    requires 3 <= |frame| <= 11
    ensures msg.Short()
  {
    CanMsg(Identifier(frame[0], frame[1], frame[2]), true, false, |frame| - 3, Padded(frame[3..]))
  }

  /** The bytes a message carries: the low three identifier bytes and the data. */
  function Bytes(msg: CanMsg): (frame: seq<bv8>)
    requires msg.Short()
    ensures |frame| == msg.len + 3
  {
    [IdByte(msg.id, 16), IdByte(msg.id, 8), IdByte(msg.id, 0)] + msg.data[..msg.len]
  }

  /** What a reader finds that does not stop at the end of the data array. */
  function Seen(msg: CanMsg, beyond: Tail): (bytes: seq<bv8>)
    requires |msg.data| == 8
    ensures |bytes| == 16
    ensures msg.Short() ==> bytes[..msg.len + 3] == Bytes(msg)
  {
    [IdByte(msg.id, 16), IdByte(msg.id, 8), IdByte(msg.id, 0)] + msg.data + beyond
  }

  lemma IdentifierBytes(b0: bv8, b1: bv8, b2: bv8)
    ensures var id := Identifier(b0, b1, b2);
            && id <= 0xff_ffff && IdByte(id, 16) == b0 && IdByte(id, 8) == b1 && IdByte(id, 0) == b2
  {
  }

  lemma BytesIdentifier(id: bv29)
    ensures Identifier(IdByte(id, 16), IdByte(id, 8), IdByte(id, 0)) == id & 0xff_ffff
  {
  }

  /** Reading back a packed frame gives the frame. */
  lemma RoundTrip(frame: seq<bv8>)
    requires 3 <= |frame| <= 11
    ensures Bytes(Pack(frame)) == frame
  {
    hide Identifier, IdByte;
    IdentifierBytes(frame[0], frame[1], frame[2]);
    assert Pack(frame).data[..|frame| - 3] == frame[3..];
    assert frame == [frame[0], frame[1], frame[2]] + frame[3..];
  }

  /** Sending on what was received reproduces the message exactly when the identifier fits 24 bits,
      the message is an extended data frame, and the unused data bytes are zero. */
  lemma RepackExact(msg: CanMsg)
    requires msg.Short()
    ensures Pack(Bytes(msg)) == msg
       <==> && msg.id <= 0xff_ffff && msg.extended && !msg.remote
            && forall i :: msg.len <= i < 8 ==> msg.data[i] == 0
  {
    hide Identifier, IdByte;
    BytesIdentifier(msg.id);
    assert msg.id & 0xff_ffff == msg.id <==> msg.id <= 0xff_ffff;
    var bytes := Bytes(msg);
    assert bytes[3..] == msg.data[..msg.len];
    var p := Padded(msg.data[..msg.len]);
    if forall i :: msg.len <= i < 8 ==> msg.data[i] == 0 {
      forall i | 0 <= i < 8 ensures p[i] == msg.data[i] {
        if i < msg.len {
          assert p[i] == msg.data[..msg.len][i];
        }
      }
      assert p == msg.data;
    } else {
      assert p != msg.data;
    }
  }

  /** Every frame built around a short payload survives the bus and still passes the parser's tests. */
  lemma MadeFrameSurvives(header: seq<bv8>, code: bv8, payload: seq<bv8>)
    requires |header| == 3 && |payload| <= 5
    ensures var frame := Make(header, code, payload);
            var received := Bytes(Pack(frame));
            received == frame && WellFormed(received)
  {
    hide Make, Pack, Bytes, WellFormed;
    MakeWellFormed(header, code, payload);
    RoundTrip(Make(header, code, payload));
  }

  lemma SeenAt(msg: CanMsg, beyond: Tail)
    requires |msg.data| == 8
    ensures var bytes := Seen(msg, beyond);
            && bytes[0] == IdByte(msg.id, 16) && bytes[1] == IdByte(msg.id, 8) && bytes[2] == IdByte(msg.id, 0)
            && forall k :: 3 <= k < 16 ==> bytes[k] == (msg.data + beyond)[k - 3]
  {
    hide IdByte;
  }

  /** can_channel_read: fills the caller's buffer from the received message. A length code above 8 makes
      it read on past the data array. */
  method Read(msg: CanMsg, beyond: Tail, buff: array<bv8>, len: nat) returns (size: nat)
    requires |msg.data| == 8
    requires len <= buff.Length && len <= 16
    modifies buff
    ensures len < 3 ==> size == 0 && buff[..] == old(buff[..])
    ensures len >= 3 ==>
              && size == (if len < msg.len + 3 then len else msg.len + 3)
              && buff[..size] == Seen(msg, beyond)[..size]
              && buff[size..] == old(buff[size..])
  {
    if len < 3 {
      return 0;
    }
    hide IdByte, Bytes, Seen;
    ghost var bytes, start := Seen(msg, beyond), buff[..];
    var memory := msg.data + beyond;
    SeenAt(msg, beyond);
    buff[0] := IdByte(msg.id, 16);
    buff[1] := IdByte(msg.id, 8);
    buff[2] := IdByte(msg.id, 0);
    size := 3;
    while size < len && size < msg.len + 3
      invariant 3 <= size <= len && size <= msg.len + 3
      invariant forall k :: 0 <= k < size ==> buff[k] == bytes[k]
      invariant forall k :: size <= k < buff.Length ==> buff[k] == start[k]
    {
      buff[size] := memory[size - 3];
      size := size + 1;
    }
    assert buff[size..] == start[size..];
  }

  /** can_channel_write: builds the outgoing message; shorter inputs than a header send nothing.
      The source copies len - 3 bytes into the eight-byte data array, so a caller passes at most 11. */
  method Write(data: array<bv8>, len: nat) returns (sent: bool, msg: CanMsg)
    requires len <= data.Length && len <= 11
    ensures sent <==> len >= 3
    ensures sent ==> msg == Pack(data[..len])
  {
    hide Identifier;
    msg := CanMsg(0, true, false, 0, [0, 0, 0, 0, 0, 0, 0, 0]);
    if len < 3 {
      return false, msg;
    }
    var id := msg.id;
    id := id + ((data[0] as bv29) << 16);
    id := id + ((data[1] as bv29) << 8);
    id := id + (data[2] as bv29);
    IdentifierSum(data[0], data[1], data[2]);
    var bytes := msg.data;
    var n := len - 3;
    for i := 0 to n
      invariant |bytes| == 8
      invariant forall k :: 0 <= k < i ==> bytes[k] == data[k + 3]
      invariant forall k :: i <= k < 8 ==> bytes[k] == 0
    {
      bytes := bytes[i := data[i + 3]];
    }
    assert bytes == Padded(data[..len][3..]);
    msg := msg.(id := id, len := n, data := bytes);
    sent := true;
  }

  lemma IdentifierSum(b0: bv8, b1: bv8, b2: bv8)
    ensures 0 + ((b0 as bv29) << 16) + ((b1 as bv29) << 8) + (b2 as bv29) == Identifier(b0, b1, b2)
  {
  }
}
