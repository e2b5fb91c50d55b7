/**
 The XDP packet filter: an Ethernet/VLAN/IPv4/port parser over the bytes of a frame, a
 verdict by blacklist, and per-CPU counters incremented in place.
 */
module XdpFilter {
  import opened Wrappers
  import opened Bytes

  datatype Action = Aborted | Drop | Pass | Tx  // XDP_ABORTED = 0 .. XDP_TX = 3

  const XDP_ACTION_MAX := 4
  const PORTS := 65536

  const ETH_HEADER := 14
  const VLAN_HEADER := 4
  const IP_HEADER := 20
  const UDP_HEADER := 8
  const TCP_HEADER := 20

  const ETH_P_802_3_MIN := 0x0600
  const ETH_P_8021Q := 0x8100
  const ETH_P_8021AD := 0x88A8
  const ETH_P_IP := 0x0800

  const IPPROTO_TCP := 6
  const IPPROTO_UDP := 17

  datatype FilterProto = FilterTcp | FilterUdp  // DDOS_FILTER_TCP = 0, DDOS_FILTER_UDP = 1

  function Index(a: Action): nat {
    match a
    case Aborted => 0
    case Drop => 1
    case Pass => 2
    case Tx => 3
  }

  /** The bit 1 << fproto of a port mask. */
  function Bit(p: FilterProto): bv64 {
    if p.FilterTcp? then 1 else 2
  }

  // ----- what the bytes of a frame mean -----

  predicate IsTag(ethType: nat) {
    ethType == ETH_P_8021Q || ethType == ETH_P_8021AD
  }

  function TypeAt(frame: seq<byte>, off: nat): nat
    requires off + 2 <= |frame|
  {
    Be16(frame[off], frame[off + 1])
  }

  /** Skip up to `tags` VLAN tags, given the type found so far; None if the frame ends first. */
  function SkipTags(frame: seq<byte>, ethType: nat, off: nat, tags: nat): Option<(nat, nat)>
    decreases tags
  {
    if tags == 0 || !IsTag(ethType) then Some((ethType, off))
    else if off + VLAN_HEADER > |frame| then None
    else SkipTags(frame, TypeAt(frame, off + 2), off + VLAN_HEADER, tags - 1)
  }

  /** The layer-3 protocol and where layer 3 begins; None if the frame is not parsed. */
  function EthOf(frame: seq<byte>): Option<(nat, nat)> {
    if ETH_HEADER > |frame| then None
    else if TypeAt(frame, 12) < ETH_P_802_3_MIN then None
    else SkipTags(frame, TypeAt(frame, 12), ETH_HEADER, 2)
  }

  /** What follows the IPv4 header. */
  datatype Layer4 = OtherProto | Short | Port(proto: FilterProto, dport: nat)

  datatype Parsed =
    | NotParsed                            // no verdict is counted
    | NotIpv4
    | ShortIp
    | Ipv4(saddr: nat, layer4: Layer4)

  function Layer4Of(frame: seq<byte>, protocol: nat, off: nat): Layer4 {
    if protocol == IPPROTO_UDP then
      if off + UDP_HEADER > |frame| then Short else Port(FilterUdp, TypeAt(frame, off + 2))
    else if protocol == IPPROTO_TCP then
      if off + TCP_HEADER > |frame| then Short else Port(FilterTcp, TypeAt(frame, off + 2))
    else OtherProto
  }

  /** The source address as the map key: the four bytes as they stand, read as a native word. */
  function SaddrAt(frame: seq<byte>, off: nat): nat
    requires off + IP_HEADER <= |frame|
  {
    Le32(frame[off + 12], frame[off + 13], frame[off + 14], frame[off + 15])
  }

  function Parse(frame: seq<byte>): Parsed {
    match EthOf(frame)
    case None => NotParsed
    case Some((proto, l3)) =>
      if proto != ETH_P_IP then NotIpv4
      else if l3 + IP_HEADER > |frame| then ShortIp
      else Ipv4(SaddrAt(frame, l3), Layer4Of(frame, frame[l3 + 9], l3 + IP_HEADER))
  }

  // ----- maps -----

  /** The BPF maps: per-CPU values, by key and CPU. */
  datatype Maps = Maps(
    blacklist: map<nat, seq<nat>>,  // drop counter by source address
    verdicts: seq<seq<nat>>,        // counter by action
    ports: seq<seq<bv64>>,          // mask by port
    tcpDrops: seq<seq<nat>>,        // drop counter by port
    udpDrops: seq<seq<nat>>)

  predicate Table<T>(t: seq<seq<T>>, keys: nat, cpus: nat) {
    |t| == keys && forall k :: 0 <= k < keys ==> |t[k]| == cpus
  }

  /** Every map has a value for every CPU, and the array maps all their keys. */
  predicate Shaped(m: Maps, cpus: nat) {
    (forall ip :: ip in m.blacklist ==> |m.blacklist[ip]| == cpus) &&
    Table(m.verdicts, XDP_ACTION_MAX, cpus) && Table(m.ports, PORTS, cpus) &&
    Table(m.tcpDrops, PORTS, cpus) && Table(m.udpDrops, PORTS, cpus)
  }

  function Bump(v: seq<nat>, cpu: nat): (w: seq<nat>)
    requires cpu < |v|
    ensures |w| == |v|
  {
    v[cpu := (v[cpu] + 1) % TWO_64]
  }

  function BumpAt(t: seq<seq<nat>>, key: nat, cpu: nat): (u: seq<seq<nat>>)
    requires key < |t| && cpu < |t[key]|
    ensures |u| == |t| && forall k :: 0 <= k < |t| ==> |u[k]| == |t[k]|
  {
    t[key := Bump(t[key], cpu)]
  }

  /** `*drops += 1` through a 32-bit pointer: the low word of the 64-bit slot wraps by itself. */
  function NextLow(x: nat): (y: nat)
    ensures x % TWO_32 == TWO_32 - 1 ==> y + TWO_32 == x + 1
    ensures x % TWO_32 != TWO_32 - 1 ==> y == x + 1
  {
    x - x % TWO_32 + (x % TWO_32 + 1) % TWO_32
  }

  function BumpLow(t: seq<seq<nat>>, key: nat, cpu: nat): (u: seq<seq<nat>>)
    requires key < |t| && cpu < |t[key]|
    ensures |u| == |t| && forall k :: 0 <= k < |t| ==> |u[k]| == |t[k]|
  {
    var row: seq<nat> := t[key][cpu := NextLow(t[key][cpu])];
    t[key := row]
  }

  // ----- verdicts -----

  /** The mask of `port` on `cpu` has the protocol's bit set. */
  predicate PortBlocked(m: Maps, cpus: nat, cpu: nat, proto: FilterProto, port: nat)
    requires Shaped(m, cpus) && cpu < cpus && port < PORTS
  {
    m.ports[port][cpu] & Bit(proto) != 0
  }

  function Verdict(m: Maps, cpus: nat, cpu: nat, p: Parsed): Action
    requires Shaped(m, cpus) && cpu < cpus
    requires p.Ipv4? && p.layer4.Port? ==> p.layer4.dport < PORTS
  {
    match p
    case NotParsed => Pass
    case NotIpv4 => Pass
    case ShortIp => Aborted
    case Ipv4(saddr, l4) =>
      if saddr in m.blacklist then Drop
      else
        match l4
        case OtherProto => Pass
        case Short => Aborted
        case Port(proto, dport) => if PortBlocked(m, cpus, cpu, proto, dport) then Drop else Pass
  }

  /** The drop counter that goes with the verdict, one higher on this CPU. */
  function CountDrop(m: Maps, cpus: nat, cpu: nat, p: Parsed): (t: Maps)
    requires Shaped(m, cpus) && cpu < cpus
    requires p.Ipv4? && p.layer4.Port? ==> p.layer4.dport < PORTS
    ensures Shaped(t, cpus) && t.verdicts == m.verdicts
  {
    if Verdict(m, cpus, cpu, p) != Drop then m
    else if p.saddr in m.blacklist then m.(blacklist := m.blacklist[p.saddr := Bump(m.blacklist[p.saddr], cpu)])
    else if p.layer4.proto.FilterTcp? then m.(tcpDrops := BumpLow(m.tcpDrops, p.layer4.dport, cpu))
    else m.(udpDrops := BumpLow(m.udpDrops, p.layer4.dport, cpu))
  }

  /** The maps after a frame. */
  function AfterFrame(m: Maps, cpus: nat, cpu: nat, frame: seq<byte>): (t: Maps)
    requires Shaped(m, cpus) && cpu < cpus
    ensures Shaped(t, cpus)
  {
    var p := Parse(frame);
    if p.NotParsed? then m
    else
      var t := CountDrop(m, cpus, cpu, p);
      t.(verdicts := BumpAt(t.verdicts, Index(Verdict(m, cpus, cpu, p)), cpu))
  }

  // ----- the program -----

  /** parse_eth: true and the two results, or false. */
  method ParseEth(frame: seq<byte>) returns (ok: bool, ethProto: nat, l3: nat)
    ensures ok <==> EthOf(frame).Some?
    ensures ok ==> EthOf(frame) == Some((ethProto, l3))
  {
    ethProto, l3 := 0, 0;
    var offset := ETH_HEADER;
    if offset > |frame| {
      return false, 0, 0;
    }
    var ethType := TypeAt(frame, 12);
    if ethType < ETH_P_802_3_MIN {
      return false, 0, 0;
    }
    if ethType == ETH_P_8021Q || ethType == ETH_P_8021AD {
      var vlan := offset;
      offset := offset + VLAN_HEADER;
      if offset > |frame| {
        return false, 0, 0;
      }
      ethType := TypeAt(frame, vlan + 2);
    }
    if ethType == ETH_P_8021Q || ethType == ETH_P_8021AD {
      var vlan := offset;
      offset := offset + VLAN_HEADER;
      if offset > |frame| {
        return false, 0, 0;
      }
      ethType := TypeAt(frame, vlan + 2);
    }
    return true, ethType, offset;
  }

  class Filter {
    const cpus: nat
    var blacklist: map<nat, seq<nat>>
    var verdicts: seq<seq<nat>>
    var ports: seq<seq<bv64>>
    var tcpDrops: seq<seq<nat>>
    var udpDrops: seq<seq<nat>>

    constructor (cpus: nat, m: Maps)
      requires Shaped(m, cpus)
      ensures this.cpus == cpus && State() == m
    {
      this.cpus := cpus;
      blacklist, verdicts, ports, tcpDrops, udpDrops := m.blacklist, m.verdicts, m.ports, m.tcpDrops, m.udpDrops;
    }

    function State(): Maps
      reads this
    {
      Maps(blacklist, verdicts, ports, tcpDrops, udpDrops)
    }

    ghost predicate Valid()
      reads this
    {
      Shaped(State(), cpus)
    }

    /** stats_action_verdict. */
    method StatsActionVerdict(cpu: nat, action: Action)
      requires Valid() && cpu < cpus
      modifies this`verdicts
      ensures verdicts == BumpAt(old(verdicts), Index(action), cpu)
    {
      var key := Index(action);
      var values: seq<nat> := verdicts[key][cpu := (verdicts[key][cpu] + 1) % TWO_64];
      verdicts := verdicts[key := values];
    }

    /** parse_port. */
    method ParsePort(cpu: nat, frame: seq<byte>, protocol: nat, hdr: nat) returns (action: Action)
      requires Valid() && cpu < cpus
      modifies this`tcpDrops, this`udpDrops
      ensures
        var l4 := Layer4Of(frame, protocol, hdr);
        var hit := l4.Port? && PortBlocked(old(State()), cpus, cpu, l4.proto, l4.dport);
        action == (if hit then Drop else if l4.Short? then Aborted else Pass) &&
        tcpDrops == (if hit && l4.proto.FilterTcp? then BumpLow(old(tcpDrops), l4.dport, cpu) else old(tcpDrops)) &&
        udpDrops == (if hit && l4.proto.FilterUdp? then BumpLow(old(udpDrops), l4.dport, cpu) else old(udpDrops))
    {
      var dport, fproto := 0, FilterUdp;
      if protocol == IPPROTO_UDP {
        if hdr + UDP_HEADER > |frame| {
          return Aborted;
        }
        dport := TypeAt(frame, hdr + 2);
      } else if protocol == IPPROTO_TCP {
        if hdr + TCP_HEADER > |frame| {
          return Aborted;
        }
        dport := TypeAt(frame, hdr + 2);
        fproto := FilterTcp;
      } else {
        return Pass;
      }
      var mask := ports[dport][cpu];
      if mask & Bit(fproto) != 0 {
        if fproto.FilterTcp? {
          var values: seq<nat> := tcpDrops[dport][cpu := NextLow(tcpDrops[dport][cpu])];
          tcpDrops := tcpDrops[dport := values];
        } else {
          var values: seq<nat> := udpDrops[dport][cpu := NextLow(udpDrops[dport][cpu])];
          udpDrops := udpDrops[dport := values];
        }
        return Drop;
      }
      return Pass;
    }

    /** parse_ipv4. */
    method ParseIpv4(cpu: nat, frame: seq<byte>, l3: nat) returns (action: Action)
      requires Valid() && cpu < cpus
      modifies this`blacklist, this`tcpDrops, this`udpDrops
      ensures
        var p := if l3 + IP_HEADER > |frame| then ShortIp
                 else Ipv4(SaddrAt(frame, l3), Layer4Of(frame, frame[l3 + 9], l3 + IP_HEADER));
        action == Verdict(old(State()), cpus, cpu, p) && State() == CountDrop(old(State()), cpus, cpu, p)
    {
      if l3 + IP_HEADER > |frame| {
        return Aborted;
      }
      var saddr := SaddrAt(frame, l3);
      if saddr in blacklist {
        var values: seq<nat> := blacklist[saddr][cpu := (blacklist[saddr][cpu] + 1) % TWO_64];
        blacklist := blacklist[saddr := values];
        return Drop;
      }
      action := ParsePort(cpu, frame, frame[l3 + 9], l3 + IP_HEADER);
    }

    /** xdp_program. */
    method XdpProgram(cpu: nat, frame: seq<byte>) returns (action: Action)
      requires Valid() && cpu < cpus
      modifies this
      ensures Valid()
      ensures action == Verdict(old(State()), cpus, cpu, Parse(frame))
      ensures State() == AfterFrame(old(State()), cpus, cpu, frame)
    {
      var ok, ethProto, l3 := ParseEth(frame);
      if !ok {
        return Pass;
      }
      if ethProto == ETH_P_IP {
        action := ParseIpv4(cpu, frame, l3);
      } else {
        action := Pass;
      }
      StatsActionVerdict(cpu, action);
    }
  }
}
