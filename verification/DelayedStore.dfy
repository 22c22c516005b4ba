/** The configuration store over an EEPROM that shows each accepted record only after some ticks.
    config_modify rewrites the whole record from the RAM copy, and both config_get and the mirror update
    inside config_modify reload that copy, so a slow EEPROM can make two updates interfere. */
module DelayedStore {
  import opened Config
  import opened Device
  import opened Protocol
  import opened Commands

  /** An accepted record and the tick from which reads return it. */
  datatype Pending = Pending(record: Info, due: nat)

  datatype Store = Store(ram: Info, base: Info, queue: seq<Pending>, now: nat) {

    /** What a read returns: the newest record that is due. */
    function Visible(): Info {
      VisibleOf(base, queue, now)
    }

    /** config_get */
    function Fetch(): Store {
      this.(ram := Visible())
    }

    /** config_modify with an accepted write, followed by the reload in lock_info_update. */
    function Modify(key: Key, v: bv32, latency: nat): Store {
      var record := Put(ram, key, v);
      this.(ram := record, queue := queue + [Pending(record, now + latency)]).Fetch()
    }

    function Wait(ticks: nat): Store {
      this.(now := now + ticks)
    }

    /** Nothing is pending and the RAM copy is up to date. */
    predicate Settled() {
      queue == [] && ram == base
    }
  }

  function VisibleOf(base: Info, queue: seq<Pending>, now: nat): Info {
    if queue == [] then base
    else
      var last := queue[|queue| - 1];
      if last.due <= now then last.record else VisibleOf(base, queue[..|queue| - 1], now)
  }

  /** An update and d ticks, with or without a read at the end. */
  function Updated(s: Store, key: Key, v: bv32, latency: nat, d: nat, refresh: bool): Store {
    var first := s.Modify(key, v, latency).Wait(d);
    if refresh then first.Fetch() else first
  }

  /** Two updates, d ticks apart, and enough time for both records to become visible. */
  function Pair(s: Store, k1: Key, v1: bv32, d: nat, refresh: bool, k2: Key, v2: bv32, latency: nat): Store {
    Updated(Updated(s, k1, v1, latency, d, refresh), k2, v2, latency, latency, true)
  }

  /** The RAM copy holds the update exactly if it is visible at once or read after the commit. */
  lemma UpdatedState(s: Store, key: Key, v: bv32, latency: nat, d: nat, refresh: bool)
    requires s.Settled()
    ensures var record := Put(s.base, key, v);
            Updated(s, key, v, latency, d, refresh)
            == Store(if latency == 0 || (refresh && latency <= d) then record else s.base,
                     s.base, [Pending(record, s.now + latency)], s.now + d)
  {
    hide Put, VisibleOf;
    var p := Pending(Put(s.base, key, v), s.now + latency);
    assert s.queue + [p] == [p];
    OneVisible(s.base, p, s.now);
    OneVisible(s.base, p, s.now + d);
  }

  /** The second record of a pair is built on whatever the RAM copy held when it was made. */
  lemma PairRecord(s: Store, k1: Key, v1: bv32, d: nat, refresh: bool, k2: Key, v2: bv32, latency: nat)
    requires s.Settled()
    ensures Pair(s, k1, v1, d, refresh, k2, v2, latency).ram == Put(Updated(s, k1, v1, latency, d, refresh).ram, k2, v2)
  {
    var start := Updated(s, k1, v1, latency, d, refresh);
    LastVisible(start, k2, v2, latency);
    hide Updated, Put;
  }

  lemma LastVisible(s: Store, key: Key, v: bv32, latency: nat)
    ensures Updated(s, key, v, latency, latency, true).ram == Put(s.ram, key, v)
  {
    hide Put;
  }

  lemma OneVisible(base: Info, p: Pending, now: nat)
    ensures VisibleOf(base, [p], now) == if p.due <= now then p.record else base
  {
    assert [p][..0] == [];
  }

  /** A first update that changes something survives a second update of another key exactly when its
      record was visible before the second one started: at once, or through a read after the commit. */
  lemma FirstUpdateSurvivesIff(s: Store, k1: Key, v1: bv32, d: nat, refresh: bool, k2: Key, v2: bv32, latency: nat)
    requires s.Settled() && k1 != k2 && Truncated(k1, v1) != Get(s.base, k1)
    ensures Get(Pair(s, k1, v1, d, refresh, k2, v2, latency).ram, k1) == Truncated(k1, v1)
       <==> latency == 0 || (refresh && latency <= d)
    ensures Get(Pair(s, k1, v1, d, refresh, k2, v2, latency).ram, k2) == Truncated(k2, v2)
  {
    hide Put, Get, Truncated, Pair, Updated;
    PairRecord(s, k1, v1, d, refresh, k2, v2, latency);
    UpdatedState(s, k1, v1, latency, d, refresh);
    var start := Updated(s, k1, v1, latency, d, refresh).ram;
    PutSame(s.base, k1, v1);
    PutSame(start, k2, v2);
    PutOther(start, k2, v2, k1);
  }

  // ------------------------------------------- the serial-number commands on it

  /** 0x07 and 0x37: the serial number, then the type if the refreshed mirror still shows another one. */
  function Adopt(s: Store, sn: bv32, wanted: bv8, latency: nat): Store {
    var e := s.Modify(Sn, sn, latency);
    if LockType(e.ram) != wanted then e.Modify(DeviceType, Wide8(wanted), latency) else e
  }

  /** What 0x37 answers: address and serial number read back, and the verdict of the accepted write. */
  function Answer(s: Store): seq<bv8> {
    Identity(s.Visible()) + [Verdict(true)]
  }

  /** Without latency the store is the one of the device model: an update of a store whose RAM copy is up
      to date leaves it up to date and shows what the device then holds. */
  lemma InstantModify(s: Store, d: Device, env: Environment, key: Key, v: bv32)
    requires s.ram == s.Visible() == d.store && env.written(d.history)
    ensures var e := s.Modify(key, v, 0);
            e.ram == e.Visible() == Modify(d, env, key, v).0.store
  {
    hide Put;
  }

  /** So is 0x37, down to its answer. */
  lemma InstantAdopt(s: Store, d: Device, env: Environment, data: Buffer)
    requires s.ram == s.Visible() == d.store && forall h :: env.written(h)
    ensures var (e, action) := React(d, env, AvcModifySn, data);
            var f := Adopt(s, SnAt(data, 6), AVC_SWITCH, 0);
            f.ram == f.Visible() == e.store && action == Reply(0x37, Answer(f))
  {
    hide Store.Visible, Store.Modify, Put, SnAt, LockType, Identity;
    assert env.written(d.history);
    InstantModify(s, d, env, Sn, SnAt(data, 6));
    var d1 := Modify(d, env, Sn, SnAt(data, 6)).0;
    assert env.written(d1.history);
    InstantModify(s.Modify(Sn, SnAt(data, 6), 0), d1, env, DeviceType, Wide8(AVC_SWITCH));
  }

  /** A serial-number command on a slow EEPROM, answered at once and left to settle. If the device must
      also change its type, the type's record is built on the old serial number and replaces the new one;
      the answer shows the old serial number and still reports success. */
  lemma SlowAdopt(s: Store, sn: bv32, wanted: bv8, latency: nat)
    requires s.Settled() && latency > 0
    ensures var f := Adopt(s, sn, wanted, latency);
            && Answer(f) == Identity(s.base) + [0x10]
            && f.Wait(latency).Visible()
               == if LockType(s.base) == wanted then Put(s.base, Sn, sn) else Put(s.base, DeviceType, Wide8(wanted))
  {
    hide Put, VisibleOf, LockType, Identity;
    var first := Pending(Put(s.base, Sn, sn), s.now + latency);
    assert s.queue + [first] == [first];
    OneVisible(s.base, first, s.now);
    OneVisible(s.base, first, s.now + latency);
    if LockType(s.base) != wanted {
      var second := Pending(Put(s.base, DeviceType, Wide8(wanted)), s.now + latency);
      assert [first] + [second] == [first, second];
      TwoVisible(s.base, first, second, s.now);
      TwoVisible(s.base, first, second, s.now + latency);
    }
  }

  lemma TwoVisible(base: Info, p: Pending, q: Pending, now: nat)
    ensures VisibleOf(base, [p, q], now)
         == if q.due <= now then q.record else if p.due <= now then p.record else base
  {
    assert [p, q][..1] == [p];
    OneVisible(base, p, now);
  }

  /** The new serial number is kept exactly if the EEPROM shows writes at once or the type already fits. */
  lemma SnKeptIff(s: Store, sn: bv32, wanted: bv8, latency: nat)
    requires s.Settled() && Truncated(Sn, sn) != Get(s.base, Sn)
    ensures Get(Adopt(s, sn, wanted, latency).Wait(latency).Visible(), Sn) == Truncated(Sn, sn)
       <==> latency == 0 || LockType(s.base) == wanted
  {
    PutSame(s.base, Sn, sn);
    PutOther(s.base, DeviceType, Wide8(wanted), Sn);
    if latency == 0 {
      PutOther(Put(s.base, Sn, sn), DeviceType, Wide8(wanted), Sn);
      PromptAdopt(s, sn, wanted);
    } else {
      SlowAdopt(s, sn, wanted, latency);
    }
    hide Adopt, Put, Get, Truncated, LockType, Store.Visible;
  }

  lemma PromptAdopt(s: Store, sn: bv32, wanted: bv8)
    requires s.Settled()
    ensures var record := Put(s.base, Sn, sn);
            Adopt(s, sn, wanted, 0).Wait(0).Visible()
            == if LockType(record) == wanted then record else Put(record, DeviceType, Wide8(wanted))
  {
    hide Put, LockType;
  }
}
