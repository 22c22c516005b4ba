/** Command tables, the frame parser and the dispatch array (applications/protocol.c, protocol.h, handler.c). */
module Protocol {
  import opened Crc8
  import opened ErrorDetection
  import opened Frame
  import opened Device

  /** The handler functions, in the order of the dispatch array. */
  datatype Handler =
    | YkQueryState | YkControl | YkModifyAddr | YkReportState | YkModifySn
    | AvcQueryState | AvcControlCommand | AvcControlRequest | AvcModifyDevice | AvcModifySn | AvcProductionQuery
    | ColdQueryAll | ColdControl | ColdModifyTimeout | ColdModifyAddr | ColdModifySn | ColdProductionQuery

  const HANDLERS: seq<Handler> := [
    YkQueryState, YkControl, YkModifyAddr, YkReportState, YkModifySn,
    AvcQueryState, AvcControlCommand, AvcControlRequest, AvcModifyDevice, AvcModifySn, AvcProductionQuery,
    ColdQueryAll, ColdControl, ColdModifyTimeout, ColdModifyAddr, ColdModifySn, ColdProductionQuery]

  /** A table row: a function code and an index into the dispatch array. */
  datatype Row = Row(code: bv8, index: nat)

  const YK_ROWS: seq<Row> := [Row(0x01, 0), Row(0x02, 1), Row(0x03, 2), Row(0x04, 3), Row(0x07, 4), Row(0x37, 9)]

  const AVC_ROWS: seq<Row> := [
    Row(0x31, 5), Row(0x35, 6), Row(0x32, 7), Row(0x33, 8), Row(0x37, 9), Row(0x3f, 10), Row(0x07, 4)]

  const COLD_ROWS: seq<Row> := [
    Row(0x21, 11), Row(0x25, 12), Row(0x2a, 13), Row(0x23, 14), Row(0x27, 15), Row(0x2f, 16)]

  function Rows(table: Table): seq<Row> {
    match table
    case YkTable => YK_ROWS
    case AvcSwitchTable => AVC_ROWS
    case ColdLockTable => COLD_ROWS
    case NoTable => []
  }

  /** The function code each handler is written for. */
  function CodeOf(h: Handler): bv8 {
    match h
    case YkQueryState => 0x01
    case YkControl => 0x02
    case YkModifyAddr => 0x03
    case YkReportState => 0x04
    case YkModifySn => 0x07
    case AvcQueryState => 0x31
    case AvcControlCommand => 0x35
    case AvcControlRequest => 0x32
    case AvcModifyDevice => 0x33
    case AvcModifySn => 0x37
    case AvcProductionQuery => 0x3f
    case ColdQueryAll => 0x21
    case ColdControl => 0x25
    case ColdModifyTimeout => 0x2a
    case ColdModifyAddr => 0x23
    case ColdModifySn => 0x27
    case ColdProductionQuery => 0x2f
  }

  /** The codes a table answers to. */
  predicate Knows(table: Table, h: Handler) {
    match table
    case YkTable => h in {YkQueryState, YkControl, YkModifyAddr, YkReportState, YkModifySn, AvcModifySn}
    case AvcSwitchTable => h in {AvcQueryState, AvcControlCommand, AvcControlRequest, AvcModifyDevice,
                                 AvcModifySn, AvcProductionQuery, YkModifySn}
    case ColdLockTable => h in {ColdQueryAll, ColdControl, ColdModifyTimeout, ColdModifyAddr,
                                ColdModifySn, ColdProductionQuery}
    case NoTable => false
  }

  /** The device-id gate: only the two serial-number commands pass with a foreign device id. */
  predicate GateOpen(deviceId: bv8, ownId: bv8, code: bv8) {
    deviceId == ownId || code == 0x37 || code == 0x07
  }

  /** What the parser promises: checksum, length, gate, and a handler for the function code. */
  predicate Accepts(data: seq<bv8>, len: nat, ownId: bv8, table: Table, h: Handler)
    requires 5 <= |data| && len <= |data|
  {
    && CrcOk(data[..len])
    && LengthField(data[3], len)
    && GateOpen(data[0], ownId, data[4])
    && Knows(table, h)
    && CodeOf(h) == data[4]
  }

  /** Table rows, enum order and dispatch array agree: row by row, the handler is the one for the code. */
  lemma RowsAgree(table: Table, k: nat)
    requires k < |Rows(table)|
    ensures Rows(table)[k].index < |HANDLERS|
    ensures var h := HANDLERS[Rows(table)[k].index];
            Knows(table, h) && CodeOf(h) == Rows(table)[k].code
  {
  }

  /** Every handler a table knows has a row. */
  lemma RowExists(table: Table, h: Handler) returns (k: nat)
    requires Knows(table, h)
    ensures k < |Rows(table)| && Rows(table)[k].code == CodeOf(h)
  {
    match table {
      case YkTable => k := if h.AvcModifySn? then 5 else if h.YkQueryState? then 0 else if h.YkControl? then 1
                           else if h.YkModifyAddr? then 2 else if h.YkReportState? then 3 else 4;
      case AvcSwitchTable => k := if h.AvcQueryState? then 0 else if h.AvcControlCommand? then 1
                                  else if h.AvcControlRequest? then 2 else if h.AvcModifyDevice? then 3
                                  else if h.AvcModifySn? then 4 else if h.AvcProductionQuery? then 5 else 6;
      case ColdLockTable => k := if h.ColdQueryAll? then 0 else if h.ColdControl? then 1
                                 else if h.ColdModifyTimeout? then 2 else if h.ColdModifyAddr? then 3
                                 else if h.ColdModifySn? then 4 else 5;
    }
  }

  /** Different handlers have different codes, so an accepted frame has one handler. */
  lemma CodesDistinct(g: Handler, h: Handler)
    requires CodeOf(g) == CodeOf(h)
    ensures g == h
  {
  }

  /** The table search at the end of the parser. */
  method FindRow(table: Table, code: bv8) returns (index: int)
    ensures index == -1 <==> forall h :: !(Knows(table, h) && CodeOf(h) == code)
    ensures index != -1 ==> 0 <= index < |HANDLERS| && Knows(table, HANDLERS[index]) && CodeOf(HANDLERS[index]) == code
  {
    hide CodeOf, Knows, Rows;
    var rows := Rows(table);
    for i := 0 to |rows|
      invariant forall k :: 0 <= k < i ==> rows[k].code != code
    {
      if code == rows[i].code {
        RowsAgree(table, i);
        return rows[i].index;
      }
    }
    index := -1;
    forall h | Knows(table, h)
      ensures CodeOf(h) != code
    {
      var k := RowExists(table, h);
    }
  }

  lemma CrcTest(s: seq<bv8>, len: nat)
    requires 1 <= len <= |s|
    ensures CrcOk(s[..len]) <==> s[len - 1] == Checksum(s[..len - 1])
  {
    assert s[..len][..len - 1] == s[..len - 1];
  }

  /** protocol_parser: on success returns the dispatch index. The two size tests, the gate and the
      table search are those of the source; hardware_type is always the AVC switch board. */
  method Parse(data: array<bv8>, len: nat, ownId: bv8, table: Table) returns (index: int)
    requires 5 <= data.Length && 1 <= len <= data.Length < TWO_TO_THE_32
    ensures index == -1 <==> forall h :: !Accepts(data[..], len, ownId, table, h)
    ensures index != -1 ==> 0 <= index < |HANDLERS| && Accepts(data[..], len, ownId, table, HANDLERS[index])
  {
    hide CodeOf, Knows, Checksum, CrcOk, LengthMatches, LengthField;
    CrcTest(data[..], len);
    LengthWraps(data[3], len);
    assert data[..][..len - 1] == data[..len - 1];
    var crc := Crc8.Compute(data, len - 1);
    if data[len - 1] != crc {
      return -1;
    }
    if !LengthMatches(data[3], len) {
      return -1;
    }
    var devId, code := data[0], data[4];
    if devId != ownId && code != 0x37 && code != 0x07 {
      return -1;
    }
    index := FindRow(table, code);
    if index != -1 {
      assert Accepts(data[..], len, ownId, table, HANDLERS[index]);
    }
  }
}
