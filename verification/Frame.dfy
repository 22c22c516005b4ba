/** Application frames: three header bytes, a length byte, a function code, a payload and a checksum. */
module Frame {
  import opened Crc8
  import opened ErrorDetection

  const TWO_TO_THE_32 := 0x1_0000_0000

  /** The parser's length test. The subtraction is done on 32-bit unsigned sizes and wraps. */
  predicate LengthMatches(b: bv8, len: nat) {
    b as int == (len - 5) % TWO_TO_THE_32
  }

  /** What the test means: because of the wrap, sizes below 5 never match. */
  predicate LengthField(b: bv8, len: nat) {
    len >= 5 && b as int == len - 5
  }

  lemma LengthWraps(b: bv8, len: nat)
    requires len < TWO_TO_THE_32
    ensures LengthMatches(b, len) <==> LengthField(b, len)
  {
  }

  /** The frame a handler builds around a payload. */
  function Make(header: seq<bv8>, code: bv8, payload: seq<bv8>): (frame: seq<bv8>)
    requires |header| == 3 && |payload| <= 5
    ensures |frame| == |payload| + 6
  {
    var body := header + [(|payload| + 1) as bv8, code] + payload;
    body + [Checksum(body)]
  }

  const NO_HEADER: seq<bv8> := [0, 0, 0]

  /** A frame that fits one CAN data frame and passes the parser's checksum and length tests. */
  predicate WellFormed(frame: seq<bv8>) {
    5 <= |frame| <= 11 && CrcOk(frame) && LengthMatches(frame[3], |frame|)
  }

  lemma MakeWellFormed(header: seq<bv8>, code: bv8, payload: seq<bv8>)
    requires |header| == 3 && |payload| <= 5
    ensures var frame := Make(header, code, payload);
            && WellFormed(frame)
            && frame[..3] == header && frame[4] == code && frame[5..|frame| - 1] == payload
            && frame[3] as int == |frame| - 5
  {
    var frame := Make(header, code, payload);
    assert frame[..|frame| - 1] == header + [(|payload| + 1) as bv8, code] + payload;
    hide Checksum;
  }

  /** A filled buffer is the frame its code and payload bytes determine. */
  lemma Filled(s: seq<bv8>)
    requires 6 <= |s| <= 11
    requires s[3] as int == |s| - 5
    requires s[|s| - 1] == Checksum(s[..|s| - 1])
    ensures s == Make(s[..3], s[4], s[5..|s| - 1])
  {
    hide Checksum;
    var n := |s| - 1;
    var payload := s[5..n];
    assert (|payload| + 1) as bv8 == s[3];
    assert s[..n] == s[..3] + [s[3], s[4]] + payload;
  }
}
