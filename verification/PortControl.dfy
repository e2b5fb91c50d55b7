/**
 The control plane of the packet filter: edits of the source-address blacklist and of the
 per-CPU port masks, made from user space between frames.
 */
module PortControl {
  import opened Wrappers
  import opened Bytes
  import opened Counters64
  import opened MapSums
  import opened XdpFilter
  import opened XdpCounters
  import XdpFrames

  const ACTION_ADD := 1
  const ACTION_DEL := 2

  /** errno values. */
  const ENOENT := 2
  const E2BIG := 7
  const EEXIST := 17

  datatype Exit = ExitOk | FailIp | FailOption | FailPort | FailMapKey

  /** The errno with which the kernel refuses a call that its maps alone would not make it refuse. */
  type Refusal = Option<nat>

  // ----- edits -----

  /** A call of blacklist_modify, `ip` being None for a string that is no address. */
  datatype AddressCall = AddressCall(ip: Option<nat>, action: nat, refused: Refusal)

  /** A call of blacklist_port_modify; `counts` says which counter map its second descriptor names. */
  datatype PortCall = PortCall(
    dport: int, action: nat, proto: int, counts: FilterProto,
    lookupRefused: Refusal, updateRefused: Refusal, clearRefused: Refusal)

  /** The filter protocol of an IP protocol number. */
  function FilterOf(proto: int): Option<FilterProto> {
    if proto == IPPROTO_TCP then Some(FilterTcp)
    else if proto == IPPROTO_UDP then Some(FilterUdp)
    else None
  }

  predicate GoodAction(action: nat) {
    action == ACTION_ADD || action == ACTION_DEL
  }

  /** The call changes the mask of `port` for `proto`. */
  predicate Takes(c: PortCall, port: nat, proto: FilterProto) {
    GoodAction(c.action) && FilterOf(c.proto) == Some(proto) && c.dport == port < PORTS && c.updateRefused.None?
  }

  /** The mask such a call leaves where it found `mask`; a refused lookup reads as an empty mask. */
  function MaskAfter(mask: bv64, c: PortCall, proto: FilterProto): bv64 {
    var read := if c.lookupRefused.None? then mask else 0;
    if c.action == ACTION_ADD then With(read, Bit(proto)) else Without(read, Bit(proto))
  }

  function Masked(row: seq<bv64>, c: PortCall, proto: FilterProto): (t: seq<bv64>)
    ensures |t| == |row|
  {
    seq(|row|, cpu requires 0 <= cpu < |row| => MaskAfter(row[cpu], c, proto))
  }

  function Cleared(m: Maps, cpus: nat, counts: FilterProto, port: nat): (t: Maps)
    requires Shaped(m, cpus) && port < PORTS
    ensures Shaped(t, cpus) && t.ports == m.ports && t.blacklist == m.blacklist
  {
    if counts.FilterTcp? then m.(tcpDrops := m.tcpDrops[port := Zeros(cpus)])
    else m.(udpDrops := m.udpDrops[port := Zeros(cpus)])
  }

  predicate Clears(c: PortCall) {
    c.action == ACTION_DEL && c.clearRefused.None?
  }

  /** The maps after the call. */
  function AfterPort(m: Maps, cpus: nat, c: PortCall): (t: Maps)
    requires Shaped(m, cpus)
    ensures Shaped(t, cpus)
  {
    var proto := FilterOf(c.proto);
    if c.dport < 0 || proto.None? || !Takes(c, c.dport, proto.value) then m
    else
      var t := m.(ports := m.ports[c.dport := Masked(m.ports[c.dport], c, proto.value)]);
      if Clears(c) then Cleared(t, cpus, c.counts, c.dport) else t
  }

  function PortExit(c: PortCall): Exit {
    if !GoodAction(c.action) || FilterOf(c.proto).None? then FailOption
    else if c.dport >= PORTS then FailPort
    else if c.updateRefused.Some? then if c.updateRefused.value == EEXIST then ExitOk else FailMapKey
    else if c.dport < 0 then FailMapKey
    else if c.action == ACTION_DEL && c.clearRefused.Some? then FailMapKey
    else ExitOk
  }

  /** What the kernel answers: its own reason first, then any other refusal. */
  function AddressErrno(m: Maps, c: AddressCall): Refusal
    requires c.ip.Some?
  {
    if c.action == ACTION_ADD && c.ip.value in m.blacklist then Some(EEXIST)
    else if c.action == ACTION_DEL && c.ip.value !in m.blacklist then Some(ENOENT)
    else c.refused
  }

  function AfterAddress(m: Maps, cpus: nat, c: AddressCall): (t: Maps)
    requires Shaped(m, cpus)
    ensures Shaped(t, cpus) && t.ports == m.ports
  {
    if c.ip.None? || !GoodAction(c.action) || AddressErrno(m, c).Some? then m
    else if c.action == ACTION_ADD then m.(blacklist := m.blacklist[c.ip.value := Zeros(cpus)])
    else m.(blacklist := m.blacklist - {c.ip.value})
  }

  function AddressExit(m: Maps, c: AddressCall): Exit {
    if c.ip.None? then FailIp
    else if !GoodAction(c.action) then FailOption
    else if AddressErrno(m, c).None? || AddressErrno(m, c).value == EEXIST then ExitOk
    else FailMapKey
  }

  // ----- the kernel's side of a call -----

  /** BPF_MAP_LOOKUP_ELEM on the port map: one value per CPU, copied out. */
  method LookupPort(f: Filter, key: int, values: array<bv64>, refused: Refusal) returns (failed: bool)
    requires f.Valid() && values.Length == f.cpus
    modifies values
    ensures failed <==> refused.Some? || !(0 <= key < PORTS)
    ensures values[..] == if failed then old(values[..]) else f.ports[key]
  {
    if refused.Some? || !(0 <= key < PORTS) {
      return true;
    }
    for cpu := 0 to f.cpus
      invariant values[..cpu] == f.ports[key][..cpu]
    {
      values[cpu] := f.ports[key][cpu];
    }
    return false;
  }

  /** BPF_MAP_UPDATE_ELEM with BPF_EXIST on the port map. */
  method UpdatePort(f: Filter, key: int, values: array<bv64>, refused: Refusal) returns (errno: Option<nat>)
    requires f.Valid() && values.Length == f.cpus
    modifies f`ports
    ensures errno == if refused.Some? then refused else if 0 <= key < PORTS then None else Some(E2BIG)
    ensures f.ports == if errno.Some? then old(f.ports) else old(f.ports)[key := values[..]]
  {
    if refused.Some? {
      return refused;
    }
    if !(0 <= key < PORTS) {
      return Some(E2BIG);
    }
    f.ports := f.ports[key := values[..]];
    return None;
  }

  // ----- user space -----

  function With(mask: bv64, value: bv64): bv64 {
    mask | value
  }

  function Without(mask: bv64, value: bv64): bv64 {
    mask & !value
  }

  method SetBits(values: array<bv64>, value: bv64)
    modifies values
    ensures forall k :: 0 <= k < values.Length ==> values[k] == With(old(values[k]), value)
  {
    for i := 0 to values.Length
      invariant forall k :: 0 <= k < i ==> values[k] == With(old(values[k]), value)
      invariant forall k :: i <= k < values.Length ==> values[k] == old(values[k])
    {
      values[i] := With(values[i], value);
    }
  }

  method ClearBits(values: array<bv64>, value: bv64)
    modifies values
    ensures forall k :: 0 <= k < values.Length ==> values[k] == Without(old(values[k]), value)
  {
    for i := 0 to values.Length
      invariant forall k :: 0 <= k < i ==> values[k] == Without(old(values[k]), value)
      invariant forall k :: i <= k < values.Length ==> values[k] == old(values[k])
    {
      values[i] := Without(values[i], value);
    }
  }

  /** The loops over the CPUs' copies. */
  method EditValues(values: array<bv64>, c: PortCall, proto: FilterProto)
    requires GoodAction(c.action) && c.lookupRefused.None?
    modifies values
    ensures values[..] == Masked(old(values[..]), c, proto)
  {
    if c.action == ACTION_ADD {
      SetBits(values, Bit(proto));
    } else if c.action == ACTION_DEL {
      ClearBits(values, Bit(proto));
    }
  }

  /** Reading the mask, changing one bit of every CPU's copy and writing it back. */
  method EditPort(f: Filter, c: PortCall, proto: FilterProto) returns (errno: Option<nat>)
    requires f.Valid() && GoodAction(c.action) && c.dport < PORTS
    modifies f`ports
    ensures errno == if c.updateRefused.Some? then c.updateRefused else if c.dport < 0 then Some(E2BIG) else None
    ensures
      f.ports == if errno.Some? then old(f.ports) else old(f.ports)[c.dport := Masked(old(f.ports)[c.dport], c, proto)]
  {
    var values := new bv64[f.cpus](_ => 0);
    var failed := LookupPort(f, c.dport, values, c.lookupRefused);
    ghost var read := values[..];
    EditValues(values, c.(lookupRefused := None), proto);
    if 0 <= c.dport {
      SameMasked(f.ports[c.dport], read, c, proto);
    }
    errno := UpdatePort(f, c.dport, values, c.updateRefused);
  }

  lemma SameMasked(row: seq<bv64>, read: seq<bv64>, c: PortCall, proto: FilterProto)
    requires |read| == |row|
    requires if c.lookupRefused.Some? then forall k :: 0 <= k < |row| ==> read[k] == 0 else read == row
    ensures Masked(read, c.(lookupRefused := None), proto) == Masked(row, c, proto)
  {
  }

  /** BPF_MAP_UPDATE_ELEM with BPF_EXIST and zeros on a counter map. */
  method ClearCounts(f: Filter, counts: FilterProto, port: nat)
    requires f.Valid() && port < PORTS
    modifies f`tcpDrops, f`udpDrops
    ensures f.State() == Cleared(old(f.State()), f.cpus, counts, port)
  {
    if counts.FilterTcp? {
      f.tcpDrops := f.tcpDrops[port := Zeros(f.cpus)];
    } else {
      f.udpDrops := f.udpDrops[port := Zeros(f.cpus)];
    }
  }

  /** blacklist_port_modify. */
  method BlacklistPortModify(f: Filter, c: PortCall) returns (exit: Exit)
    requires f.Valid()
    modifies f
    ensures f.Valid() && f.State() == AfterPort(old(f.State()), f.cpus, c)
    ensures exit == PortExit(c)
  {
    if c.action != ACTION_ADD && c.action != ACTION_DEL {
      return FailOption;
    }
    var proto := FilterOf(c.proto);
    if proto.None? {
      return FailOption;
    }
    if c.dport > 65535 {
      return FailPort;
    }
    var errno := EditPort(f, c, proto.value);
    if errno.Some? {
      return if errno.value == EEXIST then ExitOk else FailMapKey;
    }
    if c.action == ACTION_DEL {
      if c.clearRefused.Some? {
        return FailMapKey;
      }
      ClearCounts(f, c.counts, c.dport);
    }
    return ExitOk;
  }

  /** blacklist_modify. */
  method BlacklistModify(f: Filter, c: AddressCall) returns (exit: Exit)
    requires f.Valid()
    modifies f`blacklist
    ensures f.Valid() && f.State() == AfterAddress(old(f.State()), f.cpus, c)
    ensures exit == AddressExit(old(f.State()), c)
  {
    if c.ip.None? {
      return FailIp;
    }
    var key := c.ip.value;
    var errno := None;
    if c.action == ACTION_ADD {
      errno := if key in f.blacklist then Some(EEXIST) else c.refused;
      if errno.None? {
        f.blacklist := f.blacklist[key := Zeros(f.cpus)];
      }
    } else if c.action == ACTION_DEL {
      errno := if key !in f.blacklist then Some(ENOENT) else c.refused;
      if errno.None? {
        f.blacklist := f.blacklist - {key};
      }
    } else {
      return FailOption;
    }
    if errno.Some? {
      return if errno.value == EEXIST then ExitOk else FailMapKey;
    }
    return ExitOk;
  }

  // ----- histories -----

  /** What can happen to the filter, one at a time. */
  datatype Happening =
    | Address(a: AddressCall)
    | Ports(c: PortCall)
    | Packet(cpu: nat, frame: seq<byte>)

  function Next(m: Maps, cpus: nat, h: Happening): (t: Maps)
    requires Shaped(m, cpus)
    ensures Shaped(t, cpus)
  {
    match h
    case Address(a) => AfterAddress(m, cpus, a)
    case Ports(c) => AfterPort(m, cpus, c)
    case Packet(cpu, frame) => if cpu < cpus then AfterFrame(m, cpus, cpu, frame) else m
  }

  function Empty(cpus: nat): (m: Maps)
    ensures Shaped(m, cpus)
  {
    Maps(map[], seq(XDP_ACTION_MAX, _ => Zeros(cpus)), seq(PORTS, _ => seq(cpus, _ => 0)),
         seq(PORTS, _ => Zeros(cpus)), seq(PORTS, _ => Zeros(cpus)))
  }

  /** The maps after a history that starts with empty maps; the latest happening is the last. */
  function After(cpus: nat, hs: seq<Happening>): (t: Maps)
    ensures Shaped(t, cpus)
  {
    if |hs| == 0 then Empty(cpus) else Next(After(cpus, hs[..|hs| - 1]), cpus, hs[|hs| - 1])
  }

  predicate Edits(h: Happening, port: nat, proto: FilterProto) {
    h.Ports? && Takes(h.c, port, proto)
  }

  function Other(p: FilterProto): FilterProto {
    if p.FilterTcp? then FilterUdp else FilterTcp
  }

  /** The latest edit of the port for the protocol that took effect was ADD. */
  predicate Wanted(hs: seq<Happening>, port: nat, proto: FilterProto) {
    |hs| > 0 &&
    var h := hs[|hs| - 1];
    if Edits(h, port, proto) then h.c.action == ACTION_ADD else Wanted(hs[..|hs| - 1], port, proto)
  }

  /** Since that ADD, an edit for the other protocol was written back after a refused lookup. */
  predicate Lost(hs: seq<Happening>, port: nat, proto: FilterProto) {
    |hs| > 0 &&
    var h := hs[|hs| - 1];
    !Edits(h, port, proto) &&
    (Lost(hs[..|hs| - 1], port, proto) ||
     (Wanted(hs[..|hs| - 1], port, proto) && Edits(h, port, Other(proto)) && h.c.lookupRefused.Some?))
  }

  lemma MaskAfterBit(mask: bv64, c: PortCall, proto: FilterProto)
    requires GoodAction(c.action)
    ensures MaskAfter(mask, c, proto) & Bit(proto) != 0 <==> c.action == ACTION_ADD
  {
  }

  lemma MaskAfterOtherBit(mask: bv64, c: PortCall, proto: FilterProto)
    requires GoodAction(c.action)
    ensures
      MaskAfter(mask, c, proto) & Bit(Other(proto)) != 0 <==> c.lookupRefused.None? && mask & Bit(Other(proto)) != 0
  {
    var b, o := Bit(proto), Bit(Other(proto));
    assert (mask | b) & o == mask & o && (mask & !b) & o == mask & o;
    assert (0 | b) & o == 0 && (0 & !b) & o == 0;
  }

  lemma MaskInMap(m: Maps, cpus: nat, c: PortCall, cpu: nat, proto: FilterProto, port: nat)
    requires Shaped(m, cpus) && cpu < cpus && port < PORTS
    ensures Takes(c, port, proto) ==> AfterPort(m, cpus, c).ports[port][cpu] == MaskAfter(m.ports[port][cpu], c, proto)
    ensures
      !Takes(c, port, proto) && !Takes(c, port, Other(proto)) ==> AfterPort(m, cpus, c).ports[port] == m.ports[port]
  {
  }

  /** One port edit, seen through the bit of one protocol on one CPU. */
  lemma EditIsSeen(m: Maps, cpus: nat, c: PortCall, cpu: nat, proto: FilterProto, port: nat)
    requires Shaped(m, cpus) && cpu < cpus && port < PORTS
    ensures
      PortBlocked(AfterPort(m, cpus, c), cpus, cpu, proto, port) <==>
      if Takes(c, port, proto) then c.action == ACTION_ADD
      else PortBlocked(m, cpus, cpu, proto, port) && !(Takes(c, port, Other(proto)) && c.lookupRefused.Some?)
  {
    MaskInMap(m, cpus, c, cpu, proto, port);
    MaskInMap(m, cpus, c, cpu, Other(proto), port);
    if Takes(c, port, proto) {
      MaskAfterBit(m.ports[port][cpu], c, proto);
    } else if Takes(c, port, Other(proto)) {
      MaskAfterOtherBit(m.ports[port][cpu], c, Other(proto));
    }
  }

  /** After any history, on any CPU: a port is blocked exactly if its latest edit was ADD and was not lost since. */
  lemma {:induction false} BlockedIff(cpus: nat, hs: seq<Happening>, cpu: nat, proto: FilterProto, port: nat)
    requires cpu < cpus && port < PORTS
    ensures PortBlocked(After(cpus, hs), cpus, cpu, proto, port) <==> Wanted(hs, port, proto) && !Lost(hs, port, proto)
    ensures Lost(hs, port, proto) ==> Wanted(hs, port, proto)
  {
    if |hs| > 0 {
      var h := hs[|hs| - 1];
      BlockedIff(cpus, hs[..|hs| - 1], cpu, proto, port);
      if h.Ports? {
        EditIsSeen(After(cpus, hs[..|hs| - 1]), cpus, h.c, cpu, proto, port);
      }
    } else {
      assert (0 as bv64) & Bit(proto) == 0;
    }
  }

  /** So the mask shows the latest edits exactly if none was lost. */
  lemma ShowsLatestIff(cpus: nat, hs: seq<Happening>, cpu: nat, proto: FilterProto, port: nat)
    requires cpu < cpus && port < PORTS
    ensures
      (PortBlocked(After(cpus, hs), cpus, cpu, proto, port) <==> Wanted(hs, port, proto)) <==> !Lost(hs, port, proto)
  {
    BlockedIff(cpus, hs, cpu, proto, port);
  }

  /** No port edit was written back after a refused lookup. */
  predicate LookupsHeld(hs: seq<Happening>) {
    forall i :: 0 <= i < |hs| && hs[i].Ports? && hs[i].c.updateRefused.None? ==> hs[i].c.lookupRefused.None?
  }

  lemma {:induction false} NothingLost(hs: seq<Happening>, port: nat, proto: FilterProto)
    requires LookupsHeld(hs)
    ensures !Lost(hs, port, proto)
  {
    if |hs| > 0 {
      NothingLost(hs[..|hs| - 1], port, proto);
    }
  }

  /** TCP port 80 is added; then UDP port 80 is added, its lookup refused; TCP port 80 is open again. */
  lemma RefusedLookupOpensPort(cpus: nat, cpu: nat)
    requires cpu < cpus
    ensures
      var tcp := Ports(PortCall(80, ACTION_ADD, IPPROTO_TCP, FilterTcp, None, None, None));
      var udp := Ports(PortCall(80, ACTION_ADD, IPPROTO_UDP, FilterUdp, Some(E2BIG), None, None));
      PortExit(tcp.c) == PortExit(udp.c) == ExitOk && Wanted([tcp, udp], 80, FilterTcp) &&
      !PortBlocked(After(cpus, [tcp, udp]), cpus, cpu, FilterTcp, 80)
  {
    var tcp := Ports(PortCall(80, ACTION_ADD, IPPROTO_TCP, FilterTcp, None, None, None));
    var udp := Ports(PortCall(80, ACTION_ADD, IPPROTO_UDP, FilterUdp, Some(E2BIG), None, None));
    assert [tcp, udp][..1] == [tcp];
    assert Wanted([tcp], 80, FilterTcp) && !Lost([tcp], 80, FilterTcp);
    BlockedIff(cpus, [tcp, udp], cpu, FilterTcp, 80);
  }

  /** The latest edit of the address that took effect was ADD. */
  predicate Listed(hs: seq<Happening>, ip: nat) {
    |hs| > 0 &&
    var h := hs[|hs| - 1];
    if h.Address? && h.a.ip == Some(ip) && GoodAction(h.a.action) && h.a.refused.None? then h.a.action == ACTION_ADD
    else Listed(hs[..|hs| - 1], ip)
  }

  lemma {:induction false} ListedIff(cpus: nat, hs: seq<Happening>, ip: nat)
    ensures ip in After(cpus, hs).blacklist <==> Listed(hs, ip)
  {
    if |hs| > 0 {
      ListedIff(cpus, hs[..|hs| - 1], ip);
    }
  }

  /** The verdict a history calls for. */
  function Decision(hs: seq<Happening>, p: Parsed): Action {
    match p
    case NotParsed => Pass
    case NotIpv4 => Pass
    case ShortIp => Aborted
    case Ipv4(saddr, l4) =>
      if Listed(hs, saddr) then Drop
      else
        match l4
        case OtherProto => Pass
        case Short => Aborted
        case Port(proto, dport) => if Wanted(hs, dport, proto) then Drop else Pass
  }

  /**
   After any history of edits and frames whose lookups were not refused, the verdict follows
   from the edits alone, whichever CPU runs the filter.
   */
  lemma VerdictFollowsEdits(cpus: nat, hs: seq<Happening>, cpu: nat, p: Parsed)
    requires cpu < cpus && LookupsHeld(hs)
    requires p.Ipv4? && p.layer4.Port? ==> p.layer4.dport < PORTS
    ensures Verdict(After(cpus, hs), cpus, cpu, p) == Decision(hs, p)
  {
    if p.Ipv4? {
      ListedIff(cpus, hs, p.saddr);
      if p.layer4.Port? {
        NothingLost(hs, p.layer4.dport, p.layer4.proto);
        BlockedIff(cpus, hs, cpu, p.layer4.proto, p.layer4.dport);
      }
    }
  }

  /** Refused lookups or not, all CPUs hold the same mask of every port. */
  lemma {:induction false} CpusAgree(cpus: nat, hs: seq<Happening>, port: nat, one: nat, two: nat)
    requires port < PORTS && one < cpus && two < cpus
    ensures After(cpus, hs).ports[port][one] == After(cpus, hs).ports[port][two]
  {
    if |hs| > 0 {
      CpusAgree(cpus, hs[..|hs| - 1], port, one, two);
    }
  }

  // ----- edits and the drop accounts -----

  /** The drops a port edit forgets. */
  function Forgotten(m: Maps, cpus: nat, c: PortCall): nat
    requires Shaped(m, cpus)
  {
    if AfterPort(m, cpus, c) == m || !Clears(c) then 0
    else if c.counts.FilterTcp? then RowSum(m.tcpDrops[c.dport]) else RowSum(m.udpDrops[c.dport])
  }

  lemma PortEditFallsBehind(m: Maps, cpus: nat, c: PortCall, lost: nat)
    requires Shaped(m, cpus) && Behind(m, lost)
    ensures Behind(AfterPort(m, cpus, c), lost + Forgotten(m, cpus, c))
  {
    var t := AfterPort(m, cpus, c);
    if t != m && Clears(c) {
      ClearingForgets(m, cpus, c.dport);
    }
    ForgettingFallsBehind(m, t, Forgotten(m, cpus, c), lost);
  }

  /** A port edit keeps the drop accounts level exactly if it forgets no drops, modulo 2^64. */
  lemma PortEditReconcilesIff(m: Maps, cpus: nat, c: PortCall)
    requires Shaped(m, cpus) && Reconciled(m)
    ensures Reconciled(AfterPort(m, cpus, c)) <==> Forgotten(m, cpus, c) % TWO_64 == 0
  {
    PortEditFallsBehind(m, cpus, c, 0);
    BehindIff(AfterPort(m, cpus, c), Forgotten(m, cpus, c));
  }

  /**
   What any happening takes from the causes: an accepted deletion the drops of its address or
   port, and a frame 2^32 if it wraps the counter of its port.
   */
  ghost function Missed(m: Maps, cpus: nat, h: Happening): nat
    requires Shaped(m, cpus)
  {
    match h
    case Packet(cpu, frame) => if cpu < cpus then Loss(m, cpus, cpu, frame) else 0
    case Ports(c) => Forgotten(m, cpus, c)
    case Address(a) =>
      if a.action == ACTION_DEL && AfterAddress(m, cpus, a) != m then RowSum(m.blacklist[a.ip.value]) else 0
  }

  lemma AddressFallsBehind(m: Maps, cpus: nat, a: AddressCall, lost: nat)
    requires Shaped(m, cpus) && Behind(m, lost)
    ensures Behind(AfterAddress(m, cpus, a), lost + Missed(m, cpus, Address(a)))
  {
    if AfterAddress(m, cpus, a) != m {
      if a.action == ACTION_ADD {
        EditKeepsAccounts(m, cpus, AddAddress(a.ip.value));
      } else {
        SumPick(m.blacklist, ByRow(), a.ip.value);
        ForgettingFallsBehind(m, AfterAddress(m, cpus, a), RowSum(m.blacklist[a.ip.value]), lost);
      }
    }
  }

  lemma HappeningFallsBehind(m: Maps, cpus: nat, h: Happening, lost: nat)
    requires Shaped(m, cpus) && Behind(m, lost)
    ensures Behind(Next(m, cpus, h), lost + Missed(m, cpus, h))
  {
    match h
    case Packet(cpu, frame) =>
      if cpu < cpus {
        FrameFallsBehind(m, cpus, cpu, frame, lost);
      }
    case Ports(c) => PortEditFallsBehind(m, cpus, c, lost);
    case Address(a) => AddressFallsBehind(m, cpus, a, lost);
  }

  /** A frame wraps the counter of its port, or a deletion forgets drops that are no multiple of 2^64. */
  ghost predicate Unbalances(m: Maps, cpus: nat, h: Happening)
    requires Shaped(m, cpus)
  {
    if h.Packet? then h.cpu < cpus && WrapsSlot(m, cpus, h.cpu, Parse(h.frame))
    else Missed(m, cpus, h) % TWO_64 != 0
  }

  lemma HappeningReconcilesIff(m: Maps, cpus: nat, h: Happening)
    requires Shaped(m, cpus) && Reconciled(m)
    ensures Reconciled(Next(m, cpus, h)) <==> !Unbalances(m, cpus, h)
  {
    HappeningFallsBehind(m, cpus, h, 0);
    BehindIff(Next(m, cpus, h), Missed(m, cpus, h));
  }

  /** The accounts are level after every happening of the history. */
  ghost predicate AlwaysLevel(cpus: nat, hs: seq<Happening>) {
    Reconciled(After(cpus, hs)) && (|hs| > 0 ==> AlwaysLevel(cpus, hs[..|hs| - 1]))
  }

  ghost predicate NeverUnbalanced(cpus: nat, hs: seq<Happening>) {
    |hs| > 0 ==>
      NeverUnbalanced(cpus, hs[..|hs| - 1]) && !Unbalances(After(cpus, hs[..|hs| - 1]), cpus, hs[|hs| - 1])
  }

  /** What a whole history takes from the causes. */
  ghost function AllMissed(cpus: nat, hs: seq<Happening>): nat {
    if |hs| == 0 then 0
    else AllMissed(cpus, hs[..|hs| - 1]) + Missed(After(cpus, hs[..|hs| - 1]), cpus, hs[|hs| - 1])
  }

  lemma {:induction false} ZeroTable(keys: nat, cpus: nat)
    ensures TableSum(seq(keys, _ => Zeros(cpus))) == 0
  {
    if keys > 0 {
      ZeroTable(keys - 1, cpus);
      ZeroRow(cpus);
      assert seq(keys, _ => Zeros(cpus))[1..] == seq(keys - 1, _ => Zeros(cpus));
    }
  }

  lemma EmptyIsLevel(cpus: nat)
    ensures Reconciled(Empty(cpus))
  {
    ZeroTable(PORTS, cpus);
    ZeroRow(cpus);
    assert HashSum(map[]) == 0;
    SameSelf(0);
  }

  lemma {:induction false} HistoryFallsBehind(cpus: nat, hs: seq<Happening>)
    ensures Behind(After(cpus, hs), AllMissed(cpus, hs))
  {
    if |hs| == 0 {
      EmptyIsLevel(cpus);
    } else {
      var before := hs[..|hs| - 1];
      HistoryFallsBehind(cpus, before);
      HappeningFallsBehind(After(cpus, before), cpus, hs[|hs| - 1], AllMissed(cpus, before));
    }
  }

  /**
   After any history of edits and frames, drops by cause and drop verdicts agree modulo 2^64
   exactly if all forgotten drops and wrapped port counters together are a multiple of 2^64.
   */
  lemma LevelIffNothingMissed(cpus: nat, hs: seq<Happening>)
    ensures Reconciled(After(cpus, hs)) <==> AllMissed(cpus, hs) % TWO_64 == 0
  {
    HistoryFallsBehind(cpus, hs);
    BehindIff(After(cpus, hs), AllMissed(cpus, hs));
  }

  /**
   They agree at all times exactly if no deletion ever forgets drops, modulo 2^64, and no frame
   wraps the counter of its port.
   */
  lemma {:induction false} AlwaysLevelIff(cpus: nat, hs: seq<Happening>)
    ensures AlwaysLevel(cpus, hs) <==> NeverUnbalanced(cpus, hs)
  {
    if |hs| == 0 {
      EmptyIsLevel(cpus);
    } else {
      var before := hs[..|hs| - 1];
      AlwaysLevelIff(cpus, before);
      if AlwaysLevel(cpus, before) {
        HappeningReconcilesIff(After(cpus, before), cpus, hs[|hs| - 1]);
      }
    }
  }

  // ----- histories that put the accounts out of balance -----

  /** What the parser makes of a TCP segment from address 0 to port 80. */
  const TO_PORT_80 := Ipv4(0, Port(FilterTcp, 80))

  /** There is such a segment. */
  lemma SegmentToPort80() returns (frame: seq<byte>)
    ensures Parse(frame) == TO_PORT_80
  {
    var f := XdpFrames.Frame(seq(12, _ => 0), [], seq(9, _ => 0), (0, 0), (0, 0, 0, 0), seq(4, _ => 0),
                             XdpFrames.Tcp(0, 80, seq(16, _ => 0), []));
    XdpFrames.ParseUndoesEncode(f);
    frame := XdpFrames.Encode(f);
  }

  lemma FirstDropOfRow(cpus: nat)
    requires cpus > 0
    ensures RowSum(Bump(Zeros(cpus), 0)) == 1
  {
    ZeroRow(cpus);
    RowUpdate(Zeros(cpus), 0, 1);
  }

  /** The drop of a frame from a blacklisted address, counted on CPU 0. */
  lemma ListedFrameDrops(m: Maps, cpus: nat, frame: seq<byte>)
    requires
      Shaped(m, cpus) && cpus > 0 && Parse(frame) == TO_PORT_80 && 0 in m.blacklist && m.blacklist[0] == Zeros(cpus)
    ensures
      var t := AfterFrame(m, cpus, 0, frame);
      0 in t.blacklist && t.blacklist[0] == Bump(Zeros(cpus), 0)
    ensures !WrapsSlot(m, cpus, 0, Parse(frame))
  {
  }

  const LIST_ZERO := AddressCall(Some(0), ACTION_ADD, None)
  const DELETE_ZERO := AddressCall(Some(0), ACTION_DEL, None)

  /** Address 0 comes on the list, with nothing counted. */
  lemma ListingIsLevel(m: Maps, cpus: nat)
    requires Shaped(m, cpus) && Reconciled(m) && 0 !in m.blacklist
    ensures
      var t := AfterAddress(m, cpus, LIST_ZERO);
      Reconciled(t) && 0 in t.blacklist && t.blacklist[0] == Zeros(cpus)
  {
    HappeningReconcilesIff(m, cpus, Address(LIST_ZERO));
  }

  /** It drops a frame. */
  lemma DropIsLevel(m: Maps, cpus: nat, frame: seq<byte>)
    requires Shaped(m, cpus) && Reconciled(m) && cpus > 0 && Parse(frame) == TO_PORT_80
    requires 0 in m.blacklist && m.blacklist[0] == Zeros(cpus)
    ensures
      var t := AfterFrame(m, cpus, 0, frame);
      Reconciled(t) && 0 in t.blacklist && RowSum(t.blacklist[0]) == 1
  {
    ListedFrameDrops(m, cpus, frame);
    FirstDropOfRow(cpus);
    FrameReconcilesIff(m, cpus, 0, frame);
  }

  /** And goes from the list, with the drop. */
  lemma DeletingUnbalances(m: Maps, cpus: nat)
    requires Shaped(m, cpus) && Reconciled(m) && 0 in m.blacklist && RowSum(m.blacklist[0]) == 1
    ensures !Reconciled(AfterAddress(m, cpus, DELETE_ZERO))
  {
    DeletingAddressReconcilesIff(m, cpus, 0);
  }

  /** An address is added, drops one frame and is deleted. */
  lemma DeletionUnbalances(cpus: nat) returns (frame: seq<byte>)
    requires cpus > 0
    ensures
      var m := AfterFrame(AfterAddress(Empty(cpus), cpus, LIST_ZERO), cpus, 0, frame);
      Reconciled(m) && !Reconciled(AfterAddress(m, cpus, DELETE_ZERO))
  {
    frame := SegmentToPort80();
    EmptyIsLevel(cpus);
    ListingIsLevel(Empty(cpus), cpus);
    var listed := AfterAddress(Empty(cpus), cpus, LIST_ZERO);
    DropIsLevel(listed, cpus, frame);
    DeletingUnbalances(AfterFrame(listed, cpus, 0, frame), cpus);
  }

  /** Port 80 is added to the blacklist, and 2^32 frames to it arrive on one CPU. */
  lemma FourBillionFramesUnbalance(cpus: nat, cpu: nat) returns (frame: seq<byte>)
    requires cpu < cpus
    ensures
      var m := AfterPort(Empty(cpus), cpus, PortCall(80, ACTION_ADD, IPPROTO_TCP, FilterTcp, None, None, None));
      Reconciled(m) && !Reconciled(Run(m, cpus, seq(TWO_32, _ => Arrives(cpu, frame))))
  {
    var add := PortCall(80, ACTION_ADD, IPPROTO_TCP, FilterTcp, None, None, None);
    var m := AfterPort(Empty(cpus), cpus, add);
    EmptyIsLevel(cpus);
    PortEditReconcilesIff(Empty(cpus), cpus, add);
    EditIsSeen(Empty(cpus), cpus, add, cpu, FilterTcp, 80);
    frame := SegmentToPort80();
    FourBillionDropsUnbalance(m, cpus, cpu, frame);
  }

  /** An address added twice keeps the drops counted so far; both calls report success. */
  lemma AddingTwiceKeepsDrops(m: Maps, cpus: nat, ip: nat)
    requires Shaped(m, cpus)
    ensures
      var add := AddressCall(Some(ip), ACTION_ADD, None);
      var t := AfterAddress(m, cpus, add);
      ip in t.blacklist && AddressExit(m, add) == AddressExit(t, add) == ExitOk && AfterAddress(t, cpus, add) == t &&
      HashSum(t.blacklist) == HashSum(m.blacklist)
  {
    if ip !in m.blacklist {
      ZeroRow(cpus);
      var row: seq<nat> := Zeros(cpus);
      SumStore(m.blacklist, ByRow(), ip, row);
    }
  }
}
