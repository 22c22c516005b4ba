/** The configuration record of applications/config.c and its six keys. */
module Config {

  /** config_t */
  datatype Key = DeviceType | Addr | Sn | TimeoutExec | TimeoutCmd | SwitchState

  /** struct info: four bytes followed by one word holding an 8-bit and a 24-bit field. */
  datatype Info = Info(switchState: bv8, devType: bv8, timeoutExec: bv8, timeoutCmd: bv8, addr: bv8, sn: bv24)

  function Low8(v: bv32): bv8 {
    (v & 0xff) as bv8
  }

  function Low24(v: bv32): bv24 {
    (v & 0xff_ffff) as bv24
  }

  function Wide8(b: bv8): bv32 {
    b as bv32
  }

  function Wide24(w: bv24): bv32 {
    w as bv32
  }

  function Get(info: Info, key: Key): bv32 {
    match key
    case DeviceType => Wide8(info.devType)
    case Addr => Wide8(info.addr)
    case Sn => Wide24(info.sn)
    case TimeoutExec => Wide8(info.timeoutExec)
    case TimeoutCmd => Wide8(info.timeoutCmd)
    case SwitchState => Wide8(info.switchState)
  }

  function Put(info: Info, key: Key, v: bv32): Info {
    match key
    case DeviceType => info.(devType := Low8(v))
    case Addr => info.(addr := Low8(v))
    case Sn => info.(sn := Low24(v))
    case TimeoutExec => info.(timeoutExec := Low8(v))
    case TimeoutCmd => info.(timeoutCmd := Low8(v))
    case SwitchState => info.(switchState := Low8(v))
  }

  /** What a field of the record keeps of a value: 24 bits of a serial number, 8 of everything else. */
  function Truncated(key: Key, v: bv32): bv32 {
    if key == Sn then v & 0xff_ffff else v & 0xff
  }

  // ------------------------------------------------------------ memory layout

  /** The eight bytes of the record, least significant byte of the word first. */
  function Encode(info: Info): (bytes: seq<bv8>)
    ensures |bytes| == 8
  {
    [info.switchState, info.devType, info.timeoutExec, info.timeoutCmd, info.addr,
     (info.sn & 0xff) as bv8, ((info.sn >> 8) & 0xff) as bv8, ((info.sn >> 16) & 0xff) as bv8]
  }

  function Decode(bytes: seq<bv8>): Info
    requires |bytes| == 8
  {
    Info(bytes[0], bytes[1], bytes[2], bytes[3], bytes[4],
         (bytes[5] as bv24) | ((bytes[6] as bv24) << 8) | ((bytes[7] as bv24) << 16))
  }

  lemma DecodeEncode(info: Info)
    ensures Decode(Encode(info)) == info
  {
  }

  lemma EncodeDecode(bytes: seq<bv8>)
    requires |bytes| == 8
    ensures Encode(Decode(bytes)) == bytes
  {
  }

  /** The layout in memory: four bytes in the order of the struct, then one little-endian word whose low
      eight bits are the address and whose other 24 are the serial number. */
  lemma RecordLayout(info: Info)
    ensures var b := Encode(info);
            var word := (b[4] as bv32) | ((b[5] as bv32) << 8) | ((b[6] as bv32) << 16) | ((b[7] as bv32) << 24);
            && b[..4] == [info.switchState, info.devType, info.timeoutExec, info.timeoutCmd]
            && word & 0xff == Get(info, Addr) && word >> 8 == Get(info, Sn)
  {
  }

  // ------------------------------------------------------- the six-key reading

  /** The record read as a map from keys to values. */
  function AsMap(info: Info): map<Key, bv32> {
    map key | key in {DeviceType, Addr, Sn, TimeoutExec, TimeoutCmd, SwitchState} :: Get(info, key)
  }

  lemma Widened(v: bv32)
    ensures Wide8(Low8(v)) == v & 0xff && Wide24(Low24(v)) == v & 0xff_ffff
  {
  }

  lemma PutSame(info: Info, key: Key, v: bv32)
    ensures Get(Put(info, key, v), key) == Truncated(key, v)
  {
    hide Low8, Low24, Wide8, Wide24;
    Widened(v);
  }

  lemma PutOther(info: Info, key: Key, v: bv32, other: Key)
    requires other != key
    ensures Get(Put(info, key, v), other) == Get(info, other)
  {
  }

  /** Storing a value under one key leaves the other five alone. */
  lemma PutIsMapUpdate(info: Info, key: Key, v: bv32)
    ensures AsMap(Put(info, key, v)) == AsMap(info)[key := Truncated(key, v)]
  {
    hide Get, Put, Truncated;
    forall other: Key
      ensures Get(Put(info, key, v), other) == if other == key then Truncated(key, v) else Get(info, other)
    {
      if other == key {
        PutSame(info, key, v);
      } else {
        PutOther(info, key, v, other);
      }
    }
  }

  /** A request to the store and what came of it: the value a get returned, whether a write succeeded. */
  datatype Request = Fetch(key: Key, result: bv32) | Change(key: Key, value: bv32, written: bool)

  /** Equal up to what came of them. */
  predicate SameRequest(r: Request, s: Request) {
    match r
    case Fetch(key, _) => s.Fetch? && s.key == key
    case Change(key, value, _) => s.Change? && s.key == key && s.value == value
  }

  function Apply(m: map<Key, bv32>, requests: seq<Request>): map<Key, bv32> {
    if requests == [] then m
    else
      var n := |requests| - 1;
      var before := Apply(m, requests[..n]);
      match requests[n]
      case Fetch(_, _) => before
      case Change(key, value, written) => if written then before[key := Truncated(key, value)] else before
  }

  /** Every get of the log returned what the map held at that moment. */
  ghost predicate Truthful(m: map<Key, bv32>, log: seq<Request>) {
    forall i :: 0 <= i < |log| && log[i].Fetch? ==>
      log[i].key in Apply(m, log[..i]) && log[i].result == Apply(m, log[..i])[log[i].key]
  }

  lemma ApplyNothing(m: map<Key, bv32>)
    ensures Apply(m, []) == m
  {
  }

  /** One more entry: its effect on the map, and what keeps the log truthful. */
  lemma LogGrows(m: map<Key, bv32>, log: seq<Request>, entry: Request)
    requires Truthful(m, log)
    requires entry.Fetch? ==> entry.key in Apply(m, log) && entry.result == Apply(m, log)[entry.key]
    ensures Truthful(m, log + [entry])
    ensures Apply(m, log + [entry])
         == if entry.Change? && entry.written then Apply(m, log)[entry.key := Truncated(entry.key, entry.value)]
            else Apply(m, log)
  {
    hide Truncated;
    var longer := log + [entry];
    assert longer[..|log|] == log;
    forall i | 0 <= i < |longer| && longer[i].Fetch?
      ensures longer[i].key in Apply(m, longer[..i]) && longer[i].result == Apply(m, longer[..i])[longer[i].key]
    {
      hide Apply;
      if i < |log| {
        assert longer[..i] == log[..i];
      }
    }
  }

  lemma MapHolds(info: Info, key: Key)
    ensures key in AsMap(info) && AsMap(info)[key] == Get(info, key)
  {
  }

  /** Position i holds the last successful change of key. */
  predicate LastChange(requests: seq<Request>, key: Key, i: nat) {
    && i < |requests|
    && requests[i].Change? && requests[i].written && requests[i].key == key
    && forall j :: i < j < |requests| && requests[j].Change? && requests[j].written ==> requests[j].key != key
  }

  /** The last successful write to a key wins; a key never written keeps its first value. */
  lemma {:induction false} LastWriteWins(m: map<Key, bv32>, requests: seq<Request>, key: Key)
    requires key in m
    ensures key in Apply(m, requests)
    ensures forall i: nat :: LastChange(requests, key, i) ==> Apply(m, requests)[key] == Truncated(key, requests[i].value)
    ensures (forall i: nat :: !LastChange(requests, key, i)) ==> Apply(m, requests)[key] == m[key]
  {
    hide Truncated;
    if requests != [] {
      var n := |requests| - 1;
      var r := requests[n];
      LastWriteWins(m, requests[..n], key);
      if r.Change? && r.written && r.key == key {
        assert LastChange(requests, key, n);
      } else {
        forall i: nat
          ensures LastChange(requests, key, i) == LastChange(requests[..n], key, i)
        {
        }
      }
    }
  }
}
