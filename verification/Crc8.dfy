/** The table-driven checksum of applications/crc8.c and the polynomial division it computes. */
module Crc8 {
  const ROW_0: seq<bv8> := [
    0x00, 0x07, 0x0e, 0x09, 0x1c, 0x1b, 0x12, 0x15,
    0x38, 0x3f, 0x36, 0x31, 0x24, 0x23, 0x2a, 0x2d]
  const ROW_1: seq<bv8> := [
    0x70, 0x77, 0x7e, 0x79, 0x6c, 0x6b, 0x62, 0x65,
    0x48, 0x4f, 0x46, 0x41, 0x54, 0x53, 0x5a, 0x5d]
  const ROW_2: seq<bv8> := [
    0xe0, 0xe7, 0xee, 0xe9, 0xfc, 0xfb, 0xf2, 0xf5,
    0xd8, 0xdf, 0xd6, 0xd1, 0xc4, 0xc3, 0xca, 0xcd]
  const ROW_3: seq<bv8> := [
    0x90, 0x97, 0x9e, 0x99, 0x8c, 0x8b, 0x82, 0x85,
    0xa8, 0xaf, 0xa6, 0xa1, 0xb4, 0xb3, 0xba, 0xbd]
  const ROW_4: seq<bv8> := [
    0xc7, 0xc0, 0xc9, 0xce, 0xdb, 0xdc, 0xd5, 0xd2,
    0xff, 0xf8, 0xf1, 0xf6, 0xe3, 0xe4, 0xed, 0xea]
  const ROW_5: seq<bv8> := [
    0xb7, 0xb0, 0xb9, 0xbe, 0xab, 0xac, 0xa5, 0xa2,
    0x8f, 0x88, 0x81, 0x86, 0x93, 0x94, 0x9d, 0x9a]
  const ROW_6: seq<bv8> := [
    0x27, 0x20, 0x29, 0x2e, 0x3b, 0x3c, 0x35, 0x32,
    0x1f, 0x18, 0x11, 0x16, 0x03, 0x04, 0x0d, 0x0a]
  const ROW_7: seq<bv8> := [
    0x57, 0x50, 0x59, 0x5e, 0x4b, 0x4c, 0x45, 0x42,
    0x6f, 0x68, 0x61, 0x66, 0x73, 0x74, 0x7d, 0x7a]
  const ROW_8: seq<bv8> := [
    0x89, 0x8e, 0x87, 0x80, 0x95, 0x92, 0x9b, 0x9c,
    0xb1, 0xb6, 0xbf, 0xb8, 0xad, 0xaa, 0xa3, 0xa4]
  const ROW_9: seq<bv8> := [
    0xf9, 0xfe, 0xf7, 0xf0, 0xe5, 0xe2, 0xeb, 0xec,
    0xc1, 0xc6, 0xcf, 0xc8, 0xdd, 0xda, 0xd3, 0xd4]
  const ROW_A: seq<bv8> := [
    0x69, 0x6e, 0x67, 0x60, 0x75, 0x72, 0x7b, 0x7c,
    0x51, 0x56, 0x5f, 0x58, 0x4d, 0x4a, 0x43, 0x44]
  const ROW_B: seq<bv8> := [
    0x19, 0x1e, 0x17, 0x10, 0x05, 0x02, 0x0b, 0x0c,
    0x21, 0x26, 0x2f, 0x28, 0x3d, 0x3a, 0x33, 0x34]
  const ROW_C: seq<bv8> := [
    0x4e, 0x49, 0x40, 0x47, 0x52, 0x55, 0x5c, 0x5b,
    0x76, 0x71, 0x78, 0x7f, 0x6a, 0x6d, 0x64, 0x63]
  const ROW_D: seq<bv8> := [
    0x3e, 0x39, 0x30, 0x37, 0x22, 0x25, 0x2c, 0x2b,
    0x06, 0x01, 0x08, 0x0f, 0x1a, 0x1d, 0x14, 0x13]
  const ROW_E: seq<bv8> := [
    0xae, 0xa9, 0xa0, 0xa7, 0xb2, 0xb5, 0xbc, 0xbb,
    0x96, 0x91, 0x98, 0x9f, 0x8a, 0x8d, 0x84, 0x83]
  const ROW_F: seq<bv8> := [
    0xde, 0xd9, 0xd0, 0xd7, 0xc2, 0xc5, 0xcc, 0xcb,
    0xe6, 0xe1, 0xe8, 0xef, 0xfa, 0xfd, 0xf4, 0xf3]

  const ROWS: seq<seq<bv8>> := [
    ROW_0, ROW_1, ROW_2, ROW_3, ROW_4, ROW_5, ROW_6, ROW_7,
    ROW_8, ROW_9, ROW_A, ROW_B, ROW_C, ROW_D, ROW_E, ROW_F]

  /** The 256-entry table, row after row. */
  const TABLE: seq<bv8> := Flatten(ROWS)

  function Flatten(rows: seq<seq<bv8>>): seq<bv8> {
    if rows == [] then [] else rows[0] + Flatten(rows[1..])
  }

  /** The register times x modulo the generator. */
  function ShiftZero(r: bv8): bv8 {
    if r & 0x80 != 0 then (r << 1) ^ 0x07 else r << 1
  }

  /** The register times x^8 modulo the generator, one bit at a time. */
  function ShiftByte(r: bv8): bv8 {
    ShiftZero(ShiftZero(ShiftZero(ShiftZero(ShiftZero(ShiftZero(ShiftZero(ShiftZero(r))))))))
  }

  /** The register after a run of bytes. */
  function Register(r: bv8, data: seq<bv8>): bv8 {
    if data == [] then r else ShiftByte(Register(r, data[..|data| - 1]) ^ data[|data| - 1])
  }

  function Checksum(data: seq<bv8>): bv8 {
    Register(0, data) ^ 0xff
  }

  // ---------------------------------------------------------------- the table

  predicate RowOk(row: seq<bv8>, high: bv8) {
    && |row| == 16
    && row[0] == ShiftByte(high | 0) && row[1] == ShiftByte(high | 1)
    && row[2] == ShiftByte(high | 2) && row[3] == ShiftByte(high | 3)
    && row[4] == ShiftByte(high | 4) && row[5] == ShiftByte(high | 5)
    && row[6] == ShiftByte(high | 6) && row[7] == ShiftByte(high | 7)
    && row[8] == ShiftByte(high | 8) && row[9] == ShiftByte(high | 9)
    && row[10] == ShiftByte(high | 10) && row[11] == ShiftByte(high | 11)
    && row[12] == ShiftByte(high | 12) && row[13] == ShiftByte(high | 13)
    && row[14] == ShiftByte(high | 14) && row[15] == ShiftByte(high | 15)
  }

  lemma Row0Ok() ensures RowOk(ROW_0, 0x00) {}
  lemma Row1Ok() ensures RowOk(ROW_1, 0x10) {}
  lemma Row2Ok() ensures RowOk(ROW_2, 0x20) {}
  lemma Row3Ok() ensures RowOk(ROW_3, 0x30) {}
  lemma Row4Ok() ensures RowOk(ROW_4, 0x40) {}
  lemma Row5Ok() ensures RowOk(ROW_5, 0x50) {}
  lemma Row6Ok() ensures RowOk(ROW_6, 0x60) {}
  lemma Row7Ok() ensures RowOk(ROW_7, 0x70) {}
  lemma Row8Ok() ensures RowOk(ROW_8, 0x80) {}
  lemma Row9Ok() ensures RowOk(ROW_9, 0x90) {}
  lemma RowAOk() ensures RowOk(ROW_A, 0xA0) {}
  lemma RowBOk() ensures RowOk(ROW_B, 0xB0) {}
  lemma RowCOk() ensures RowOk(ROW_C, 0xC0) {}
  lemma RowDOk() ensures RowOk(ROW_D, 0xD0) {}
  lemma RowEOk() ensures RowOk(ROW_E, 0xE0) {}
  lemma RowFOk() ensures RowOk(ROW_F, 0xF0) {}

  lemma RowsOk(high: bv8)
    requires high < 16
    ensures |ROWS| == 16 && RowOk(ROWS[high as int], high << 4)
  {
    hide RowOk;
    Row0Ok(); Row1Ok(); Row2Ok(); Row3Ok(); Row4Ok(); Row5Ok(); Row6Ok(); Row7Ok();
    Row8Ok(); Row9Ok(); RowAOk(); RowBOk(); RowCOk(); RowDOk(); RowEOk(); RowFOk();
  }

  lemma {:induction false} FlattenAt(rows: seq<seq<bv8>>)
    requires forall i :: 0 <= i < |rows| ==> |rows[i]| == 16
    ensures |Flatten(rows)| == 16 * |rows|
    ensures forall i, j :: 0 <= i < |rows| && 0 <= j < 16 ==> Flatten(rows)[16 * i + j] == rows[i][j]
  {
    if rows != [] {
      FlattenAt(rows[1..]);
      forall i, j | 0 <= i < |rows| && 0 <= j < 16
        ensures Flatten(rows)[16 * i + j] == rows[i][j]
      {
        if i > 0 {
          assert rows[1..][i - 1] == rows[i];
          assert Flatten(rows)[16 * i + j] == Flatten(rows[1..])[16 * (i - 1) + j];
        }
      }
    }
  }

  lemma RowSizes()
    ensures |ROWS| == 16 && forall i :: 0 <= i < 16 ==> |ROWS[i]| == 16
  {
  }

  lemma Nibbles(b: bv8)
    ensures b as int == 16 * ((b >> 4) as int) + (b & 0x0f) as int
  {
  }

  lemma RowEntry(row: seq<bv8>, b: bv8)
    requires RowOk(row, b & 0xf0)
    ensures row[(b & 0x0f) as int] == ShiftByte(b)
  {
  }

  lemma FlatEntry(rows: seq<seq<bv8>>, b: bv8)
    requires |rows| == 16 && forall i :: 0 <= i < 16 ==> |rows[i]| == 16
    requires RowOk(rows[(b >> 4) as int], b & 0xf0)
    ensures |Flatten(rows)| == 256
    ensures Flatten(rows)[b as int] == ShiftByte(b)
  {
    FlattenAt(rows);
    Nibbles(b);
    RowEntry(rows[(b >> 4) as int], b);
  }

  /** Every table entry is its index times x^8 modulo the generator. */
  lemma TableIsDivision(b: bv8)
    ensures |TABLE| == 256
    ensures TABLE[b as int] == ShiftByte(b)
  {
    RowSizes();
    RowsOk(b >> 4);
    assert (b >> 4) << 4 == b & 0xf0;
    FlatEntry(ROWS, b);
  }

  function Lookup(b: bv8): (r: bv8)
    ensures r == ShiftByte(b)
  {
    TableIsDivision(b);
    TABLE[b as int]
  }

  /** The checksum loop of the firmware. */
  method Compute(data: array<bv8>, len: nat) returns (crc: bv8)
    requires len <= data.Length
    ensures crc == Checksum(data[..len])
  {
    hide Lookup, ShiftByte;
    crc := 0;
    for i := 0 to len
      invariant crc == Register(0, data[..i])
    {
      assert data[..i + 1][..i] == data[..i];
      crc := crc ^ data[i];
      crc := Lookup(crc);
    }
    crc := crc ^ 0xff;
  }
}
