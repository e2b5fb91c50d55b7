/**
 Traffic accounting: each packet is charged to the map that is switched on, under its
 tag and under tag 0, and to the app it belongs to.
 */
module NetdAccounting {
  import opened Wrappers
  import opened Bytes
  import opened NetdUpdate

  const ETH_P_IP := 0x0800
  const ETH_P_IPV6 := 0x86DD
  const IPPROTO_TCP := 6
  const IPPROTO_ESP := 50
  const IP_PROTO_OFF := 9
  const IPV6_PROTO_OFF := 6
  const IPV6_HEADER := 40
  const TCP_FLAG_OFF := 13

  /** The constants of netdbpf/bpf_shared.h, which is not part of this model. */
  datatype Shared = Shared(
    minSystemUid: nat, maxSystemUid: nat,
    dozable: bv8, standby: bv8, powersave: bv8, defaultConfig: bv8,
    uidRulesKey: nat, currentMapKey: nat, selectA: bv8, selectB: bv8,
    statsCapacity: nat, appCapacity: nat)

  datatype UidTag = UidTag(uid: nat, tag: nat)

  datatype StatsKey = StatsKey(uid: nat, tag: nat, counterSet: nat, iface: nat)

  /** A socket buffer and what the helpers say about its socket. */
  datatype Packet = Packet(
    dir: Direction, len: nat, protocol: nat, bytes: seq<byte>, sockUid: nat, cookie: nat, iface: nat)

  /** The maps that user space fills. */
  datatype Settings = Settings(
    cookieTag: map<nat, UidTag>, counterSet: map<nat, nat>, config: map<nat, bv8>, owner: map<nat, bv8>)

  /** The maps of counters. */
  datatype Counters = Counters(statsA: map<StatsKey, Value>, statsB: map<StatsKey, Value>, app: map<nat, Value>)

  function Lookup<K, V>(m: map<K, V>, k: K): Option<V> {
    if k in m then Some(m[k]) else None
  }

  // ----- who may pass -----

  /** bpf_skb_load_bytes of one byte. */
  function LoadByte(p: Packet, off: nat): Option<byte> {
    if off < |p.bytes| then Some(p.bytes[off]) else None
  }

  predicate ResetFlag(flags: Option<byte>) {
    flags.Some? && flags.value / 4 % 2 == 1
  }

  /** skip_owner_match. */
  predicate SkipOwnerMatch(p: Packet) {
    if p.protocol == ETH_P_IP then
      match LoadByte(p, IP_PROTO_OFF)
      case None => false
      case Some(proto) =>
        proto == IPPROTO_ESP ||
        (proto == IPPROTO_TCP &&
           var ihl := LoadByte(p, 0).value % 0x10;
           ResetFlag(LoadByte(p, ihl * 4 + TCP_FLAG_OFF)))
    else if p.protocol == ETH_P_IPV6 then
      match LoadByte(p, IPV6_PROTO_OFF)
      case None => false
      case Some(proto) =>
        proto == IPPROTO_ESP || (proto == IPPROTO_TCP && ResetFlag(LoadByte(p, IPV6_HEADER + TCP_FLAG_OFF)))
    else false
  }

  function GetConfig(sh: Shared, st: Settings, key: nat): bv8 {
    if key in st.config then st.config[key] else sh.defaultConfig
  }

  predicate Has(bits: bv8, bit: bv8) {
    bits & bit != 0
  }

  /** An enabled rule is against a uid with these bits. */
  predicate Barred(sh: Shared, enabled: bv8, bits: bv8) {
    (Has(enabled, sh.dozable) && !Has(bits, sh.dozable)) ||
    (Has(enabled, sh.standby) && Has(bits, sh.standby)) ||
    (Has(enabled, sh.powersave) && !Has(bits, sh.powersave))
  }

  /** bpf_owner_match: true is BPF_PASS. */
  predicate OwnerMatch(sh: Shared, st: Settings, p: Packet) {
    SkipOwnerMatch(p) || sh.minSystemUid <= p.sockUid <= sh.maxSystemUid ||
    var enabled := GetConfig(sh, st, sh.uidRulesKey);
    var rules: bv8 := if p.sockUid in st.owner then st.owner[p.sockUid] else 0;
    enabled == 0 || !Barred(sh, enabled, rules)
  }

  // ----- what a packet does to the counters -----

  /** One undisturbed bpf_update_stats on a map that holds at most `cap` entries. */
  function Store<K>(m: map<K, Value>, cap: nat, k: K, d: Direction, len: nat): map<K, Value> {
    match UpdateEntry(Lookup(m, k), |m| >= cap, d, len)
    case None => m
    case Some(v) => m[k := v]
  }

  /** The entry is there, or there is room for it. */
  predicate Lands<K>(m: map<K, Value>, cap: nat, k: K) {
    k in m || |m| < cap
  }

  /** What a counted packet is charged to, and the selector of the map in use. */
  datatype Charge = Charge(key: StatsKey, selector: bv8)

  /** None if the packet is not counted: dropped on its way out, or no map is selected. */
  function ChargeOf(sh: Shared, st: Settings, p: Packet): Option<Charge> {
    if p.dir.Egress? && !OwnerMatch(sh, st, p) then None
    else
      var utag := if p.cookie in st.cookieTag then st.cookieTag[p.cookie] else UidTag(p.sockUid, 0);
      var set_ := if utag.uid in st.counterSet then st.counterSet[utag.uid] else 0;
      if sh.currentMapKey !in st.config then None
      else Some(Charge(StatsKey(utag.uid, utag.tag, set_, p.iface), st.config[sh.currentMapKey]))
  }

  /** update_stats_with_config. */
  function StoreSelected(sh: Shared, c: Counters, selector: bv8, key: StatsKey, d: Direction, len: nat): Counters {
    if selector == sh.selectA then c.(statsA := Store(c.statsA, sh.statsCapacity, key, d, len))
    else if selector == sh.selectB then c.(statsB := Store(c.statsB, sh.statsCapacity, key, d, len))
    else c
  }

  /** The counters after the update under the packet's own tag. */
  function AfterTagged(sh: Shared, c: Counters, ch: Charge, d: Direction, len: nat): Counters {
    if ch.key.tag != 0 then StoreSelected(sh, c, ch.selector, ch.key, d, len) else c
  }

  function ApplyCharge(sh: Shared, c: Counters, ch: Charge, d: Direction, len: nat): Counters {
    var c1 := AfterTagged(sh, c, ch, d, len);
    var c2 := StoreSelected(sh, c1, ch.selector, ch.key.(tag := 0), d, len);
    c2.(app := Store(c2.app, sh.appCapacity, ch.key.uid, d, len))
  }

  function Account(sh: Shared, st: Settings, c: Counters, p: Packet): Counters {
    match ChargeOf(sh, st, p)
    case None => c
    case Some(ch) => ApplyCharge(sh, c, ch, p.dir, p.len)
  }

  // ----- the program, on maps changed in place -----

  /** bpf_update_stats, undisturbed. */
  method UpdateStats<K>(m: map<K, Value>, cap: nat, key: K, d: Direction, len: nat) returns (r: map<K, Value>)
    ensures r == Store(m, cap, key, d, len)
  {
    r := m;
    if key !in r {
      if |r| < cap {
        r := r[key := ZERO];
      }
    }
    if key in r {
      r := r[key := r[key].AddPacket(d)];
      r := r[key := r[key].AddLength(d, len)];
    }
  }

  class TrafficMaps {
    var settings: Settings
    var statsA: map<StatsKey, Value>
    var statsB: map<StatsKey, Value>
    var app: map<nat, Value>

    constructor (settings: Settings)
      ensures this.settings == settings && State() == Counters(map[], map[], map[])
    {
      this.settings, statsA, statsB, app := settings, map[], map[], map[];
    }

    function State(): Counters
      reads this
    {
      Counters(statsA, statsB, app)
    }

    /** update_stats_with_config. */
    method UpdateStatsWithConfig(sh: Shared, selector: bv8, key: StatsKey, d: Direction, len: nat)
      modifies this`statsA, this`statsB
      ensures State() == StoreSelected(sh, old(State()), selector, key, d, len)
    {
      if selector == sh.selectA {
        statsA := UpdateStats(statsA, sh.statsCapacity, key, d, len);
      } else if selector == sh.selectB {
        statsB := UpdateStats(statsB, sh.statsCapacity, key, d, len);
      }
    }

    /** bpf_traffic_account: the verdict, and the counters. */
    method TrafficAccount(sh: Shared, p: Packet) returns (pass: bool)
      modifies this`statsA, this`statsB, this`app
      ensures pass == OwnerMatch(sh, settings, p)
      ensures State() == Account(sh, settings, old(State()), p)
      ensures !pass && p.dir.Egress? ==> State() == old(State())
    {
      pass := OwnerMatch(sh, settings, p);
      if p.dir.Egress? && !pass {
        return;
      }
      var uid, tag := p.sockUid, 0;
      if p.cookie in settings.cookieTag {
        var utag := settings.cookieTag[p.cookie];
        uid, tag := utag.uid, utag.tag;
      }
      var key := StatsKey(uid, tag, 0, p.iface);
      if uid in settings.counterSet {
        key := key.(counterSet := settings.counterSet[uid]);
      }
      if sh.currentMapKey !in settings.config {
        return;
      }
      var selector := settings.config[sh.currentMapKey];
      if tag != 0 {
        UpdateStatsWithConfig(sh, selector, key, p.dir, p.len);
      }
      key := key.(tag := 0);
      UpdateStatsWithConfig(sh, selector, key, p.dir, p.len);
      app := UpdateStats(app, sh.appCapacity, uid, p.dir, p.len);
    }
  }
}
