/** The receive filter that main installs at start-up (applications/main.c). */
module Filter {
  import opened CanChannel

  /** A filter item of the CAN driver: the identifier bits under the mask must agree. */
  datatype Item = Item(id: bv29, mask: bv32) {
    predicate Matches(msg: CanMsg) {
      msg.extended && !msg.remote && SameUnder(mask, id, msg.id)
    }
  }

  predicate SameUnder(mask: bv32, a: bv29, b: bv29) {
    (a as bv32) & mask == (b as bv32) & mask
  }

  datatype Filter = Filter(first: Item, second: Item) {
    predicate Passes(msg: CanMsg) {
      first.Matches(msg) || second.Matches(msg)
    }
  }

  const YK_ID: bv8 := 0x03
  const SWITCH_ID: bv8 := 0x19
  const EXACT: bv32 := 0xffff_ffff

  /** One item for each device id, both for the stored address; a cold lock leaves the address open in
      the first one. */
  function FilterFor(addr: bv8, cold: bool): Filter {
    Filter(Item(Identifier(YK_ID, 0, addr), if cold then EXACT << 8 else EXACT),
           Item(Identifier(SWITCH_ID, 0, addr), EXACT))
  }

  /** The three header bytes the filter lets through. */
  predicate HeaderPasses(b0: bv8, b1: bv8, b2: bv8, addr: bv8, cold: bool) {
    b1 == 0 && ((b0 == YK_ID && (cold || b2 == addr)) || (b0 == SWITCH_ID && b2 == addr))
  }

  lemma ExactMask(a: bv29, b: bv29)
    ensures SameUnder(EXACT, a, b) <==> a == b
  {
  }

  lemma OpenMask(b0: bv8, addr: bv8, id: bv29)
    ensures SameUnder(EXACT << 8, Identifier(b0, 0, addr), id) <==> id == Identifier(b0, 0, IdByte(id, 0))
  {
  }

  lemma HeaderOf(id: bv29, b0: bv8, addr: bv8)
    ensures id == Identifier(b0, 0, addr)
       <==> id <= 0xff_ffff && IdByte(id, 16) == b0 && IdByte(id, 8) == 0 && IdByte(id, 0) == addr
  {
    assert id <= 0xff_ffff <==> id & 0xff_ffff == id;
    hide Identifier, IdByte;
    IdentifierBytes(b0, 0, addr);
    BytesIdentifier(id);
  }

  /** A message passes exactly if it is an extended data frame with one of the expected headers. */
  lemma PassesExact(addr: bv8, cold: bool, msg: CanMsg)
    ensures FilterFor(addr, cold).Passes(msg)
       <==> && msg.extended && !msg.remote && msg.id <= 0xff_ffff
            && HeaderPasses(IdByte(msg.id, 16), IdByte(msg.id, 8), IdByte(msg.id, 0), addr, cold)
  {
    hide SameUnder, Identifier, IdByte;
    ExactMask(Identifier(YK_ID, 0, addr), msg.id);
    ExactMask(Identifier(SWITCH_ID, 0, addr), msg.id);
    OpenMask(YK_ID, addr, msg.id);
    HeaderOf(msg.id, YK_ID, addr);
    HeaderOf(msg.id, YK_ID, IdByte(msg.id, 0));
    HeaderOf(msg.id, SWITCH_ID, addr);
  }
}
