/** Verdicts and counters of whole, cut-off and foreign frames, in terms of their fields and lengths. */
module XdpVerdicts {
  import opened Bytes
  import opened XdpFilter
  import opened XdpFrames

  /** The number of XDP_ABORTED is 0, of XDP_DROP 1, and of XDP_PASS 2. */
  function VerdictNumber(m: Maps, cpus: nat, cpu: nat, f: Frame, n: nat): nat
    requires Shaped(m, cpus) && cpu < cpus && GoodFrame(f)
  {
    if n < L3(f) then 2
    else if n < L3(f) + 20 then 0
    else if SourceKey(f) in m.blacklist then 1
    else
      match f.transport
      case Tcp(_, dport, _, _) => if n < L3(f) + 40 then 0 else if m.ports[dport][cpu] & 1 != 0 then 1 else 2
      case Udp(_, dport, _, _) => if n < L3(f) + 28 then 0 else if m.ports[dport][cpu] & 2 != 0 then 1 else 2
      case Raw(_, _) => 2
  }

  lemma VerdictOfCut(m: Maps, cpus: nat, cpu: nat, f: Frame, n: nat)
    requires Shaped(m, cpus) && cpu < cpus && GoodFrame(f) && n <= |Encode(f)|
    ensures Index(Verdict(m, cpus, cpu, Parse(Encode(f)[..n]))) == VerdictNumber(m, cpus, cpu, f, n)
  {
    ParseCut(f, n);
  }

  /** One counter before and after: a step of 64 bits if `hit`. */
  predicate Counts(was: nat, now: nat, hit: bool) {
    now == if hit then (was + 1) % 0x1_0000_0000_0000_0000 else was
  }

  /** A step of the low 32 bits alone. */
  predicate CountsLow(was: nat, now: nat, hit: bool) {
    now == if hit then was - was % 0x1_0000_0000 + (was + 1) % 0x1_0000_0000 else was
  }

  /** The first `n` bytes of the frame are dropped, but not for their source. */
  predicate PortDrop(m: Maps, cpus: nat, cpu: nat, f: Frame, n: nat)
    requires Shaped(m, cpus) && cpu < cpus && GoodFrame(f)
  {
    VerdictNumber(m, cpus, cpu, f, n) == 1 && SourceKey(f) !in m.blacklist
  }

  function DestPort(t: Transport): nat {
    match t
    case Tcp(_, dport, _, _) => dport
    case Udp(_, dport, _, _) => dport
    case Raw(_, _) => 0
  }

  ghost predicate VerdictsMove(m: Maps, t: Maps, cpus: nat, cpu: nat, counted: bool, verdict: nat)
    requires Shaped(m, cpus) && Shaped(t, cpus)
  {
    forall v, c :: 0 <= v < 4 && 0 <= c < cpus ==>
      Counts(m.verdicts[v][c], t.verdicts[v][c], c == cpu && counted && v == verdict)
  }

  ghost predicate AddressesMove(m: Maps, t: Maps, cpus: nat, cpu: nat, source: nat, seen: bool)
    requires Shaped(m, cpus) && Shaped(t, cpus)
  {
    t.blacklist.Keys == m.blacklist.Keys &&
    forall ip, c :: ip in m.blacklist && 0 <= c < cpus ==>
      Counts(m.blacklist[ip][c], t.blacklist[ip][c], c == cpu && seen && ip == source)
  }

  /** The counters of one protocol. */
  ghost predicate PortsMove(was: seq<seq<nat>>, now: seq<seq<nat>>, cpus: nat, cpu: nat, port: nat, hit: bool)
    requires Table(was, PORTS, cpus) && Table(now, PORTS, cpus)
  {
    forall p, c :: 0 <= p < PORTS && 0 <= c < cpus ==>
      CountsLow(was[p][c], now[p][c], c == cpu && hit && p == port)
  }

  /** Every counter of every map, after the first `n` bytes of the frame were seen on `cpu`. */
  ghost predicate Moves(m: Maps, t: Maps, cpus: nat, cpu: nat, f: Frame, n: nat)
    requires Shaped(m, cpus) && Shaped(t, cpus) && cpu < cpus && GoodFrame(f)
  {
    t.ports == m.ports &&
    VerdictsMove(m, t, cpus, cpu, n >= L3(f), VerdictNumber(m, cpus, cpu, f, n)) &&
    AddressesMove(m, t, cpus, cpu, SourceKey(f), n >= L3(f) + 20) &&
    PortsMove(m.tcpDrops, t.tcpDrops, cpus, cpu, DestPort(f.transport),
              f.transport.Tcp? && PortDrop(m, cpus, cpu, f, n)) &&
    PortsMove(m.udpDrops, t.udpDrops, cpus, cpu, DestPort(f.transport),
              f.transport.Udp? && PortDrop(m, cpus, cpu, f, n))
  }

  lemma LowStep(t: seq<seq<nat>>, cpus: nat, cpu: nat, port: nat)
    requires Table(t, PORTS, cpus) && cpu < cpus && port < PORTS
    ensures PortsMove(t, BumpLow(t, port, cpu), cpus, cpu, port, true)
  {
  }

  lemma VerdictStep(m: Maps, cpus: nat, cpu: nat, frame: seq<byte>)
    requires Shaped(m, cpus) && cpu < cpus
    ensures
      var t := AfterFrame(m, cpus, cpu, frame);
      t.ports == m.ports &&
      VerdictsMove(m, t, cpus, cpu, Parse(frame) != NotParsed, Index(Verdict(m, cpus, cpu, Parse(frame))))
  {
  }

  /** The drop counters, whatever was parsed. */
  lemma DropStep(m: Maps, cpus: nat, cpu: nat, p: Parsed, source: nat, port: nat)
    requires Shaped(m, cpus) && cpu < cpus && port < PORTS && (p.Ipv4? ==> p.saddr == source)
    requires p.Ipv4? && p.layer4.Port? ==> p.layer4.dport == port
    ensures
      var t := CountDrop(m, cpus, cpu, p);
      AddressesMove(m, t, cpus, cpu, source, p.Ipv4?) &&
      PortsMove(m.tcpDrops, t.tcpDrops, cpus, cpu, port, ByPort(m, cpus, cpu, p, FilterTcp)) &&
      PortsMove(m.udpDrops, t.udpDrops, cpus, cpu, port, ByPort(m, cpus, cpu, p, FilterUdp))
  {
    LowStep(m.tcpDrops, cpus, cpu, port);
    LowStep(m.udpDrops, cpus, cpu, port);
  }

  predicate ByPort(m: Maps, cpus: nat, cpu: nat, p: Parsed, proto: FilterProto)
    requires Shaped(m, cpus) && cpu < cpus
    requires p.Ipv4? && p.layer4.Port? ==> p.layer4.dport < PORTS
  {
    Verdict(m, cpus, cpu, p) == Drop && p.saddr !in m.blacklist && p.layer4.proto == proto
  }

  lemma ByPortIff(m: Maps, cpus: nat, cpu: nat, f: Frame, n: nat)
    requires Shaped(m, cpus) && cpu < cpus && GoodFrame(f) && n <= |Encode(f)|
    ensures
      f.transport.Tcp? && PortDrop(m, cpus, cpu, f, n) <==> ByPort(m, cpus, cpu, Parse(Encode(f)[..n]), FilterTcp)
    ensures
      f.transport.Udp? && PortDrop(m, cpus, cpu, f, n) <==> ByPort(m, cpus, cpu, Parse(Encode(f)[..n]), FilterUdp)
  {
    VerdictOfCut(m, cpus, cpu, f, n);
    ParseCut(f, n);
  }

  /** What the filter counts for a frame that is cut off anywhere. */
  lemma CutFrameCounts(m: Maps, cpus: nat, cpu: nat, f: Frame, n: nat)
    requires Shaped(m, cpus) && cpu < cpus && GoodFrame(f) && n <= |Encode(f)|
    ensures Moves(m, AfterFrame(m, cpus, cpu, Encode(f)[..n]), cpus, cpu, f, n)
  {
    var frame := Encode(f)[..n];
    ParseCut(f, n);
    VerdictOfCut(m, cpus, cpu, f, n);
    VerdictStep(m, cpus, cpu, frame);
    ByPortIff(m, cpus, cpu, f, n);
    DropStep(m, cpus, cpu, Parse(frame), SourceKey(f), DestPort(f.transport));
  }

  /** The filter on the first `n` bytes of a frame. */
  method FilterCut(filter: Filter, cpu: nat, f: Frame, n: nat) returns (verdict: nat)
    requires filter.Valid() && cpu < filter.cpus && GoodFrame(f) && n <= |Encode(f)|
    modifies filter
    ensures filter.Valid() && verdict == VerdictNumber(old(filter.State()), filter.cpus, cpu, f, n)
    ensures Moves(old(filter.State()), filter.State(), filter.cpus, cpu, f, n)
  {
    ghost var m := filter.State();
    var action := filter.XdpProgram(cpu, Encode(f)[..n]);
    VerdictOfCut(m, filter.cpus, cpu, f, n);
    CutFrameCounts(m, filter.cpus, cpu, f, n);
    return Index(action);
  }

  /** A frame of a type other than IPv4 passes; it is counted unless its first type is a length. */
  lemma ForeignFramePasses(m: Maps, cpus: nat, cpu: nat, macs: seq<byte>, tags: seq<Tag>, ethType: nat, rest: seq<byte>)
    requires Shaped(m, cpus) && cpu < cpus && |macs| == 12 && TypeEnds(tags, ethType, 2) && ethType != 0x0800
    ensures
      var frame := macs + Tagged(tags, ethType) + rest;
      var t := AfterFrame(m, cpus, cpu, frame);
      Verdict(m, cpus, cpu, Parse(frame)) == Pass && t == m.(verdicts := t.verdicts) &&
      VerdictsMove(m, t, cpus, cpu, |tags| > 0 || ethType >= 0x600, 2)
  {
    var frame := macs + Tagged(tags, ethType) + rest;
    assert frame[12..12 + |Tagged(tags, ethType)|] == Tagged(tags, ethType);
    EthBack(frame, tags, ethType);
  }
}
