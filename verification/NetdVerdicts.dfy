/** Which packets pass, and which entries a counted packet moves, in terms of rules, bytes and settings. */
module NetdVerdicts {
  import opened Wrappers
  import opened Bytes
  import opened NetdUpdate
  import opened NetdAccounting

  // ----- rules -----

  predicate System(sh: Shared, p: Packet) {
    sh.minSystemUid <= p.sockUid && p.sockUid <= sh.maxSystemUid
  }

  /** The rules are three different bits. */
  predicate ThreeBits(sh: Shared) {
    sh.dozable != 0 && sh.standby != 0 && sh.powersave != 0 &&
    sh.dozable & sh.standby == 0 && sh.dozable & sh.powersave == 0 && sh.standby & sh.powersave == 0
  }

  /** The settings with `rules` enabled. */
  function Enabling(sh: Shared, st: Settings, rules: bv8): Settings {
    st.(config := st.config[sh.uidRulesKey := rules])
  }

  /** The bits user space has given to a uid. */
  function BitsOf(st: Settings, uid: nat): bv8 {
    if uid in st.owner then st.owner[uid] else 0
  }

  /** The settings with more bits given to a uid. */
  function Giving(st: Settings, uid: nat, bits: bv8): Settings {
    st.(owner := st.owner[uid := BitsOf(st, uid) | bits])
  }

  /** A packet whose sender decides: neither its bytes nor its uid exempt it. */
  predicate Judged(sh: Shared, p: Packet) {
    !SkipOwnerMatch(p) && !System(sh, p)
  }

  function EnabledRules(sh: Shared, st: Settings): bv8 {
    GetConfig(sh, st, sh.uidRulesKey)
  }

  lemma NoneHas(bit: bv8)
    ensures !Has(0, bit)
  {
  }

  lemma JudgedBySender(sh: Shared, st: Settings, p: Packet)
    requires Judged(sh, p)
    ensures !OwnerMatch(sh, st, p) <==> Barred(sh, EnabledRules(sh, st), BitsOf(st, p.sockUid))
  {
    NoneHas(sh.dozable);
    NoneHas(sh.standby);
    NoneHas(sh.powersave);
  }

  /** A packet is dropped exactly if it is judged and its uid is barred. */
  lemma DroppedIff(sh: Shared, st: Settings, p: Packet)
    ensures !OwnerMatch(sh, st, p) <==> Judged(sh, p) && Barred(sh, EnabledRules(sh, st), BitsOf(st, p.sockUid))
  {
    if Judged(sh, p) {
      JudgedBySender(sh, st, p);
    }
  }

  lemma SystemAlwaysPasses(sh: Shared, st: Settings, p: Packet)
    requires System(sh, p)
    ensures OwnerMatch(sh, st, p)
  {
  }

  /** Nothing is dropped while no rule is enabled, be it by an entry or for want of one. */
  lemma WithoutRulesAllPass(sh: Shared, st: Settings, p: Packet)
    requires if sh.uidRulesKey in st.config then st.config[sh.uidRulesKey] == 0 else sh.defaultConfig == 0
    ensures OwnerMatch(sh, st, p)
  {
  }

  /** Without an entry the default decides. */
  lemma DefaultDecides(sh: Shared, st: Settings, p: Packet)
    requires sh.uidRulesKey !in st.config
    ensures OwnerMatch(sh, st, p) <==> OwnerMatch(sh, Enabling(sh, st, sh.defaultConfig), p)
  {
    DroppedIff(sh, st, p);
    DroppedIff(sh, Enabling(sh, st, sh.defaultConfig), p);
  }

  lemma OneRuleBars(sh: Shared, bits: bv8)
    requires ThreeBits(sh)
    ensures Barred(sh, sh.dozable, bits) <==> !Has(bits, sh.dozable)
    ensures Barred(sh, sh.standby, bits) <==> Has(bits, sh.standby)
    ensures Barred(sh, sh.powersave, bits) <==> !Has(bits, sh.powersave)
  {
    DisjointBits(sh.dozable, sh.standby);
    DisjointBits(sh.dozable, sh.powersave);
    DisjointBits(sh.standby, sh.powersave);
  }

  lemma DisjointBits(x: bv8, y: bv8)
    requires x != 0 && y != 0 && x & y == 0
    ensures !Has(x, y) && !Has(y, x) && Has(x, x) && Has(y, y)
  {
  }

  /** DOZABLE alone drops exactly the uids without the bit. */
  lemma DozableDropsOthers(sh: Shared, st: Settings, p: Packet)
    requires ThreeBits(sh) && Judged(sh, p)
    ensures OwnerMatch(sh, Enabling(sh, st, sh.dozable), p) <==> BitsOf(st, p.sockUid) & sh.dozable != 0
  {
    OneRuleBars(sh, BitsOf(st, p.sockUid));
    JudgedBySender(sh, Enabling(sh, st, sh.dozable), p);
  }

  /** STANDBY alone drops exactly the uids with the bit. */
  lemma StandbyDropsItsOwn(sh: Shared, st: Settings, p: Packet)
    requires ThreeBits(sh) && Judged(sh, p)
    ensures OwnerMatch(sh, Enabling(sh, st, sh.standby), p) <==> BitsOf(st, p.sockUid) & sh.standby == 0
  {
    OneRuleBars(sh, BitsOf(st, p.sockUid));
    JudgedBySender(sh, Enabling(sh, st, sh.standby), p);
  }

  /** POWERSAVE alone drops exactly the uids without the bit. */
  lemma PowersaveDropsOthers(sh: Shared, st: Settings, p: Packet)
    requires ThreeBits(sh) && Judged(sh, p)
    ensures OwnerMatch(sh, Enabling(sh, st, sh.powersave), p) <==> BitsOf(st, p.sockUid) & sh.powersave != 0
  {
    OneRuleBars(sh, BitsOf(st, p.sockUid));
    JudgedBySender(sh, Enabling(sh, st, sh.powersave), p);
  }

  /** Rules enabled together drop exactly what one of them drops. */
  lemma RulesAddUp(sh: Shared, st: Settings, p: Packet, some: bv8, more: bv8)
    ensures OwnerMatch(sh, Enabling(sh, st, some | more), p) <==>
            OwnerMatch(sh, Enabling(sh, st, some), p) && OwnerMatch(sh, Enabling(sh, st, more), p)
  {
    BarredBySome(sh, some, more, BitsOf(st, p.sockUid));
    DroppedIff(sh, Enabling(sh, st, some | more), p);
    DroppedIff(sh, Enabling(sh, st, some), p);
    DroppedIff(sh, Enabling(sh, st, more), p);
  }

  lemma BarredBySome(sh: Shared, some: bv8, more: bv8, bits: bv8)
    ensures Barred(sh, some | more, bits) <==> Barred(sh, some, bits) || Barred(sh, more, bits)
  {
    OrBits(some, more, sh.dozable);
    OrBits(some, more, sh.standby);
    OrBits(some, more, sh.powersave);
  }

  lemma OrBits(x: bv8, y: bv8, bit: bv8)
    ensures Has(x | y, bit) <==> Has(x, bit) || Has(y, bit)
  {
  }

  /** Bits beyond the three rules change nothing. */
  lemma OtherRulesDoNothing(sh: Shared, st: Settings, p: Packet, rules: bv8)
    requires rules & sh.dozable == 0 && rules & sh.standby == 0 && rules & sh.powersave == 0
    ensures OwnerMatch(sh, Enabling(sh, st, rules), p)
  {
  }

  /** With the bits `y` a uid is on the wrong side of every rule it is on the wrong side of with `x`. */
  predicate NoBetter(sh: Shared, x: bv8, y: bv8) {
    (Has(y, sh.dozable) ==> Has(x, sh.dozable)) && (Has(x, sh.standby) ==> Has(y, sh.standby)) &&
    (Has(y, sh.powersave) ==> Has(x, sh.powersave))
  }

  lemma NoBetterBars(sh: Shared, enabled: bv8, x: bv8, y: bv8)
    requires NoBetter(sh, x, y) && Barred(sh, enabled, x)
    ensures Barred(sh, enabled, y)
  {
  }

  lemma NoBetterDrops(sh: Shared, st: Settings, uid: nat, bits: bv8, p: Packet)
    requires NoBetter(sh, BitsOf(st, uid), BitsOf(st, uid) | bits) && !OwnerMatch(sh, st, p)
    ensures !OwnerMatch(sh, Giving(st, uid, bits), p)
  {
    DroppedIff(sh, st, p);
    GivenBits(st, uid, bits, p.sockUid);
    NoBetterBars(sh, EnabledRules(sh, st), BitsOf(st, p.sockUid), BitsOf(Giving(st, uid, bits), p.sockUid));
    DroppedIff(sh, Giving(st, uid, bits), p);
  }

  lemma NoWorsePasses(sh: Shared, st: Settings, uid: nat, bits: bv8, p: Packet)
    requires NoBetter(sh, BitsOf(st, uid) | bits, BitsOf(st, uid)) && OwnerMatch(sh, st, p)
    ensures OwnerMatch(sh, Giving(st, uid, bits), p)
  {
    var given := Giving(st, uid, bits);
    if !OwnerMatch(sh, given, p) {
      DroppedIff(sh, given, p);
      GivenBits(st, uid, bits, p.sockUid);
      NoBetterBars(sh, EnabledRules(sh, given), BitsOf(given, p.sockUid), BitsOf(st, p.sockUid));
      DroppedIff(sh, st, p);
    }
  }

  lemma GivenBits(st: Settings, uid: nat, bits: bv8, other: nat)
    ensures BitsOf(Giving(st, uid, bits), other) == if other == uid then BitsOf(st, uid) | bits else BitsOf(st, other)
  {
  }

  lemma StandbyIsNoBetter(sh: Shared, bits: bv8)
    requires ThreeBits(sh)
    ensures NoBetter(sh, bits, bits | sh.standby)
  {
    OrBits(bits, sh.standby, sh.standby);
    DisjointBits(sh.dozable, sh.standby);
    DisjointBits(sh.standby, sh.powersave);
    OrBits(bits, sh.standby, sh.dozable);
    OrBits(bits, sh.standby, sh.powersave);
  }

  lemma ExemptionIsNoWorse(sh: Shared, bits: bv8, bit: bv8)
    requires ThreeBits(sh) && (bit == sh.dozable || bit == sh.powersave)
    ensures NoBetter(sh, bits | bit, bits)
  {
    DisjointBits(bit, sh.standby);
    OrBits(bits, bit, sh.dozable);
    OrBits(bits, bit, sh.standby);
    OrBits(bits, bit, sh.powersave);
  }

  /** Putting a uid in standby never turns a drop into a pass. */
  lemma StandbyNeverHelps(sh: Shared, st: Settings, p: Packet, uid: nat)
    requires ThreeBits(sh) && !OwnerMatch(sh, st, p)
    ensures !OwnerMatch(sh, Giving(st, uid, sh.standby), p)
  {
    StandbyIsNoBetter(sh, BitsOf(st, uid));
    NoBetterDrops(sh, st, uid, sh.standby, p);
  }

  /** Exempting a uid from DOZABLE or POWERSAVE never turns a pass into a drop. */
  lemma ExemptionsNeverHurt(sh: Shared, st: Settings, p: Packet, uid: nat, bit: bv8)
    requires ThreeBits(sh) && (bit == sh.dozable || bit == sh.powersave) && OwnerMatch(sh, st, p)
    ensures OwnerMatch(sh, Giving(st, uid, bit), p)
  {
    ExemptionIsNoWorse(sh, BitsOf(st, uid), bit);
    NoWorsePasses(sh, st, uid, bit, p);
  }

  /** The bits of one uid are nothing to another. */
  lemma OthersAreUnaffected(sh: Shared, st: Settings, p: Packet, uid: nat, bits: bv8)
    requires uid != p.sockUid
    ensures OwnerMatch(sh, Giving(st, uid, bits), p) <==> OwnerMatch(sh, st, p)
  {
    DroppedIff(sh, st, p);
    DroppedIff(sh, Giving(st, uid, bits), p);
  }

  // ----- packets, field by field -----

  datatype Flags = Flags(fin: bool, syn: bool, rst: bool, psh: bool, ack: bool, urg: bool, ece: bool, cwr: bool)

  datatype Tcp = Tcp(
    source: nat, dest: nat, seqNo: seq<byte>, ackNo: seq<byte>, offset: byte, flags: Flags, window: nat, check: nat,
    urgent: nat)

  /** RFC 791, section 3.1; options come in words of four bytes. */
  datatype Ip4 = Ip4(
    tos: byte, length: nat, id: nat, frag: nat, ttl: byte, proto: byte, check: nat, src: seq<byte>, dst: seq<byte>,
    options: seq<byte>)

  /** RFC 8200, section 3. */
  datatype Ip6 = Ip6(flow: seq<byte>, length: nat, next: byte, hops: byte, src: seq<byte>, dst: seq<byte>)

  predicate GoodTcp(t: Tcp) {
    t.source < TWO_16 && t.dest < TWO_16 && |t.seqNo| == 4 && |t.ackNo| == 4 && t.window < TWO_16 &&
    t.check < TWO_16 && t.urgent < TWO_16
  }

  predicate GoodIp4(h: Ip4) {
    h.length < TWO_16 && h.id < TWO_16 && h.frag < TWO_16 && h.check < TWO_16 && |h.src| == 4 && |h.dst| == 4 &&
    |h.options| % 4 == 0 && |h.options| <= 40
  }

  predicate GoodIp6(h: Ip6) {
    |h.flow| == 4 && h.length < TWO_16 && |h.src| == 16 && |h.dst| == 16
  }

  function Half(x: nat): (bs: seq<byte>)
    requires x < TWO_16
    ensures |bs| == 2
  {
    [x / 0x100, x % 0x100]
  }

  function Bit(b: bool): nat {
    if b then 1 else 0
  }

  function FlagByte(f: Flags): byte {
    Bit(f.fin) + 2 * Bit(f.syn) + 4 * Bit(f.rst) + 8 * Bit(f.psh) + 16 * Bit(f.ack) + 32 * Bit(f.urg) +
    64 * Bit(f.ece) + 128 * Bit(f.cwr)
  }

  function TcpBytes(t: Tcp): (bs: seq<byte>)
    requires GoodTcp(t)
    ensures |bs| == 20
  {
    Half(t.source) + Half(t.dest) + t.seqNo + t.ackNo + [t.offset, FlagByte(t.flags)] + Half(t.window) +
    Half(t.check) + Half(t.urgent)
  }

  function Ip4Bytes(h: Ip4): (bs: seq<byte>)
    requires GoodIp4(h)
    ensures |bs| == 20 + |h.options|
  {
    [0x40 + 5 + |h.options| / 4, h.tos] + Half(h.length) + Half(h.id) + Half(h.frag) + [h.ttl, h.proto] +
    Half(h.check) + h.src + h.dst + h.options
  }

  function Ip6Bytes(h: Ip6): (bs: seq<byte>)
    requires GoodIp6(h)
    ensures |bs| == 40
  {
    h.flow + Half(h.length) + [h.next, h.hops] + h.src + h.dst
  }

  lemma MiddleBit(low: nat, bit: nat, high: nat)
    requires low < 4 && bit < 2
    ensures (low + 4 * bit + 8 * high) / 4 % 2 == bit
  {
    assert low + 4 * bit + 8 * high == low + 4 * (bit + 2 * high);
  }

  lemma RstIsBitTwo(f: Flags)
    ensures FlagByte(f) / 4 % 2 == 1 <==> f.rst
  {
    var high := Bit(f.psh) + 2 * Bit(f.ack) + 4 * Bit(f.urg) + 8 * Bit(f.ece) + 16 * Bit(f.cwr);
    MiddleBit(Bit(f.fin) + 2 * Bit(f.syn), Bit(f.rst), high);
  }

  lemma TcpFlagsStand(t: Tcp)
    requires GoodTcp(t)
    ensures TcpBytes(t)[13] == FlagByte(t.flags)
  {
  }

  lemma Ip4FieldsStand(h: Ip4)
    requires GoodIp4(h)
    ensures Ip4Bytes(h)[0] % 0x10 * 4 == |Ip4Bytes(h)| && Ip4Bytes(h)[9] == h.proto
  {
  }

  lemma Ip6FieldsStand(h: Ip6)
    requires GoodIp6(h)
    ensures Ip6Bytes(h)[6] == h.next
  {
  }

  /** An IPv4 packet is exempt exactly if it is ESP, or TCP whose flags are there and say RST. */
  lemma Ip4Exempt(p: Packet, h: Ip4, payload: seq<byte>)
    requires GoodIp4(h) && p.protocol == 0x0800 && p.bytes == Ip4Bytes(h) + payload
    ensures SkipOwnerMatch(p) <==>
            h.proto == 50 || (h.proto == 6 && |payload| > 13 && payload[13] / 4 % 2 == 1)
  {
    Ip4FieldsStand(h);
    assert p.bytes[0] == Ip4Bytes(h)[0] && p.bytes[9] == Ip4Bytes(h)[9];
    var at := p.bytes[0] % 0x10 * 4 + 13;
    assert at < |p.bytes| <==> |payload| > 13;
    assert |payload| > 13 ==> p.bytes[at] == payload[13];
  }

  /** An IPv6 packet likewise, by its next header. */
  lemma Ip6Exempt(p: Packet, h: Ip6, payload: seq<byte>)
    requires GoodIp6(h) && p.protocol == 0x86DD && p.bytes == Ip6Bytes(h) + payload
    ensures SkipOwnerMatch(p) <==>
            h.next == 50 || (h.next == 6 && |payload| > 13 && payload[13] / 4 % 2 == 1)
  {
    Ip6FieldsStand(h);
    assert p.bytes[6] == Ip6Bytes(h)[6];
    assert |payload| > 13 ==> p.bytes[53] == payload[13];
  }

  /** The packet carries the segment, in either version. */
  ghost predicate Carries(p: Packet, proto: byte, payload: seq<byte>) {
    (p.protocol == 0x0800 && exists h: Ip4 :: GoodIp4(h) && h.proto == proto && p.bytes == Ip4Bytes(h) + payload) ||
    (p.protocol == 0x86DD && exists h: Ip6 :: GoodIp6(h) && h.next == proto && p.bytes == Ip6Bytes(h) + payload)
  }

  lemma CarriedExempt(p: Packet, proto: byte, payload: seq<byte>)
    requires Carries(p, proto, payload)
    ensures SkipOwnerMatch(p) <==>
            proto == 50 || (proto == 6 && |payload| > 13 && payload[13] / 4 % 2 == 1)
  {
    if p.protocol == 0x0800 {
      var h: Ip4 :| GoodIp4(h) && h.proto == proto && p.bytes == Ip4Bytes(h) + payload;
      Ip4Exempt(p, h, payload);
    } else {
      var h: Ip6 :| GoodIp6(h) && h.next == proto && p.bytes == Ip6Bytes(h) + payload;
      Ip6Exempt(p, h, payload);
    }
  }

  /** Of all segments only those with RST are exempt, and they always pass. */
  lemma SegmentExemptIff(sh: Shared, st: Settings, p: Packet, t: Tcp, data: seq<byte>)
    requires GoodTcp(t) && Carries(p, 6, TcpBytes(t) + data)
    ensures SkipOwnerMatch(p) <==> t.flags.rst
    ensures t.flags.rst ==> OwnerMatch(sh, st, p)
  {
    CarriedExempt(p, 6, TcpBytes(t) + data);
    TcpFlagsStand(t);
    RstIsBitTwo(t.flags);
  }

  /** ESP always passes. */
  lemma EspAlwaysPasses(sh: Shared, st: Settings, p: Packet, payload: seq<byte>)
    requires Carries(p, 50, payload)
    ensures OwnerMatch(sh, st, p)
  {
    CarriedExempt(p, 50, payload);
  }

  /** Other protocols, and segments cut off before their flags, are never exempt. */
  lemma OthersAreJudged(p: Packet, proto: byte, payload: seq<byte>)
    requires Carries(p, proto, payload) && proto != 50 && (proto == 6 ==> |payload| <= 13)
    ensures !SkipOwnerMatch(p)
  {
    CarriedExempt(p, proto, payload);
  }

  /** Neither are packets of other protocols than IP. */
  lemma NonIpIsJudged(p: Packet)
    requires p.protocol != 0x0800 && p.protocol != 0x86DD
    ensures !SkipOwnerMatch(p)
  {
  }

  // ----- entries -----

  /** Whom a packet is charged to: the owner its cookie names, or else the uid of its socket, untagged. */
  predicate Owner(st: Settings, p: Packet, uid: nat, tag: nat) {
    if p.cookie in st.cookieTag then st.cookieTag[p.cookie].uid == uid && st.cookieTag[p.cookie].tag == tag
    else p.sockUid == uid && tag == 0
  }

  /** The owner's counter set; 0 without an entry. */
  predicate InSet(st: Settings, uid: nat, counterSet: nat) {
    if uid in st.counterSet then st.counterSet[uid] == counterSet else counterSet == 0
  }

  /** Outgoing packets that are dropped are not counted, nor is anything while no map is selected. */
  predicate Counted(sh: Shared, st: Settings, p: Packet) {
    (p.dir == Ingress || OwnerMatch(sh, st, p)) && sh.currentMapKey in st.config
  }

  lemma UncountedMoveNothing(sh: Shared, st: Settings, c: Counters, p: Packet)
    requires !Counted(sh, st, p)
    ensures Account(sh, st, c, p) == c
  {
  }

  /** An entry moves in the packet's direction only; a new one starts from nothing, and finds room or not. */
  lemma EntryMoves(v: Value, full: bool, len: nat)
    ensures UpdateEntry(Some(v), full, Egress, len) ==
            Some(Value(v.rxPackets, v.rxBytes, (v.txPackets + 1) % TWO_64, (v.txBytes + len) % TWO_64))
    ensures UpdateEntry(Some(v), full, Ingress, len) ==
            Some(Value((v.rxPackets + 1) % TWO_64, (v.rxBytes + len) % TWO_64, v.txPackets, v.txBytes))
    ensures UpdateEntry(None, false, Egress, len) == Some(Value(0, 0, 1, len % TWO_64))
    ensures UpdateEntry(None, false, Ingress, len) == Some(Value(1, len % TWO_64, 0, 0))
    ensures UpdateEntry(None, true, Egress, len) == None && UpdateEntry(None, true, Ingress, len) == None
  {
  }

  /** A map before and after: the entry of the tag, that of tag 0, and no other; the second may find the map full. */
  ghost predicate EntriesMove(m: map<StatsKey, Value>, n: map<StatsKey, Value>, cap: nat, key: StatsKey, p: Packet) {
    var zero := StatsKey(key.uid, 0, key.counterSet, key.iface);
    var full := |m| + (if key.tag != 0 && key !in m && |m| < cap then 1 else 0) >= cap;
    (forall k :: k != key && k != zero ==> Lookup(n, k) == Lookup(m, k)) &&
    (key.tag != 0 ==> Lookup(n, key) == UpdateEntry(Lookup(m, key), |m| >= cap, p.dir, p.len)) &&
    Lookup(n, zero) == UpdateEntry(Lookup(m, zero), full, p.dir, p.len)
  }

  lemma StoreMoves<K>(m: map<K, Value>, cap: nat, k: K, d: Direction, len: nat)
    ensures
      var n := Store(m, cap, k, d, len);
      Lookup(n, k) == UpdateEntry(Lookup(m, k), |m| >= cap, d, len) &&
      (forall j :: j != k ==> Lookup(n, j) == Lookup(m, j)) &&
      |n| == |m| + if k !in m && |m| < cap then 1 else 0
  {
    if k in m {
      var v := Base(Lookup(m, k)).AddPacket(d).AddLength(d, len);
      assert m[k := v].Keys == m.Keys;
      assert |m[k := v].Keys| == |m.Keys|;
    }
  }

  /** The two updates of a packet on the selected map. */
  lemma BothStoresMove(m: map<StatsKey, Value>, cap: nat, key: StatsKey, p: Packet)
    ensures
      var tagged := if key.tag != 0 then Store(m, cap, key, p.dir, p.len) else m;
      EntriesMove(m, Store(tagged, cap, key.(tag := 0), p.dir, p.len), cap, key, p)
  {
    var tagged := if key.tag != 0 then Store(m, cap, key, p.dir, p.len) else m;
    StoreMoves(m, cap, key, p.dir, p.len);
    StoreMoves(tagged, cap, key.(tag := 0), p.dir, p.len);
  }

  /**
   A counted packet moves the entries of its owner's uid and tag and of tag 0, in the owner's counter
   set and on the packet's interface, of the selected map; and the owner's app counter; and no other.
   */
  lemma CountedMoves(sh: Shared, st: Settings, c: Counters, p: Packet, uid: nat, tag: nat, counterSet: nat)
    requires Counted(sh, st, p) && Owner(st, p, uid, tag) && InSet(st, uid, counterSet)
    ensures
      var t, key, selected := Account(sh, st, c, p), StatsKey(uid, tag, counterSet, p.iface),
        st.config[sh.currentMapKey];
      (if selected == sh.selectA then EntriesMove(c.statsA, t.statsA, sh.statsCapacity, key, p)
       else t.statsA == c.statsA) &&
      (if selected == sh.selectB != sh.selectA then EntriesMove(c.statsB, t.statsB, sh.statsCapacity, key, p)
       else t.statsB == c.statsB) &&
      Lookup(t.app, uid) == UpdateEntry(Lookup(c.app, uid), |c.app| >= sh.appCapacity, p.dir, p.len) &&
      forall u :: u != uid ==> Lookup(t.app, u) == Lookup(c.app, u)
  {
    var key := StatsKey(uid, tag, counterSet, p.iface);
    BothStoresMove(c.statsA, sh.statsCapacity, key, p);
    BothStoresMove(c.statsB, sh.statsCapacity, key, p);
    StoreMoves(c.app, sh.appCapacity, uid, p.dir, p.len);
  }
}
