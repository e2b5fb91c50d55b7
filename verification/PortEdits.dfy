/** What one control call leaves in the maps and answers, and the verdicts that follow, in numbers on the wire. */
module PortEdits {
  import opened Wrappers
  import opened Bytes
  import opened XdpFilter
  import opened XdpFrames
  import opened XdpVerdicts
  import opened PortControl

  /** TCP is protocol 6, UDP is 17; 1 adds and 2 deletes. */
  predicate KnownCall(c: PortCall) {
    (c.action == 1 || c.action == 2) && (c.proto == 6 || c.proto == 17)
  }

  /** The mask of the port is written back. */
  predicate Writes(c: PortCall) {
    KnownCall(c) && 0 <= c.dport <= 65535 && c.updateRefused.None?
  }

  /** After that the counter of the port that the call names is cleared. */
  predicate ClearsToo(c: PortCall) {
    Writes(c) && c.action == 2 && c.clearRefused.None?
  }

  /** The mask such a call leaves: bit 0 stands for TCP, bit 1 for UDP. */
  function MaskLeft(mask: bv64, c: PortCall): bv64 {
    var read := if c.lookupRefused.None? then mask else 0;
    if c.action == 1 then Added(read, c.proto) else Deleted(read, c.proto)
  }

  function Added(mask: bv64, proto: int): bv64 {
    if proto == 6 then mask | 1 else mask | 2
  }

  function Deleted(mask: bv64, proto: int): bv64 {
    if proto == 6 then mask & !1 else mask & !2
  }

  ghost predicate MasksMove(m: Maps, t: Maps, cpus: nat, c: PortCall)
    requires Shaped(m, cpus) && Shaped(t, cpus)
  {
    forall p, cpu :: 0 <= p < PORTS && 0 <= cpu < cpus ==>
      t.ports[p][cpu] == if Writes(c) && p == c.dport then MaskLeft(m.ports[p][cpu], c) else m.ports[p][cpu]
  }

  ghost predicate DropsClear(was: seq<seq<nat>>, now: seq<seq<nat>>, cpus: nat, port: int, clears: bool)
    requires Table(was, PORTS, cpus) && Table(now, PORTS, cpus)
  {
    forall p, cpu :: 0 <= p < PORTS && 0 <= cpu < cpus ==>
      now[p][cpu] == if clears && p == port then 0 else was[p][cpu]
  }

  lemma Adds(mask: bv64, number: int, proto: FilterProto)
    requires FilterOf(number) == Some(proto)
    ensures With(mask, Bit(proto)) == Added(mask, number)
  {
    if number == 6 {
      assert Bit(proto) == 1;
    } else {
      assert Bit(proto) == 2;
    }
  }

  lemma Deletes(mask: bv64, number: int, proto: FilterProto)
    requires FilterOf(number) == Some(proto)
    ensures Without(mask, Bit(proto)) == Deleted(mask, number)
  {
    if number == 6 {
      assert Bit(proto) == 1;
    } else {
      assert Bit(proto) == 2;
    }
  }

  lemma MaskLeftIs(mask: bv64, c: PortCall, proto: FilterProto)
    requires KnownCall(c) && FilterOf(c.proto) == Some(proto)
    ensures MaskAfter(mask, c, proto) == MaskLeft(mask, c)
  {
    var read := if c.lookupRefused.None? then mask else 0;
    Adds(read, c.proto, proto);
    Deletes(read, c.proto, proto);
  }

  /** Every mask and every counter, after the call. */
  lemma PortCallMoves(m: Maps, cpus: nat, c: PortCall)
    requires Shaped(m, cpus)
    ensures
      var t := AfterPort(m, cpus, c);
      t.verdicts == m.verdicts && t.blacklist == m.blacklist && MasksMove(m, t, cpus, c) &&
      DropsClear(m.tcpDrops, t.tcpDrops, cpus, c.dport, ClearsToo(c) && c.counts.FilterTcp?) &&
      DropsClear(m.udpDrops, t.udpDrops, cpus, c.dport, ClearsToo(c) && c.counts.FilterUdp?)
  {
    if Writes(c) {
      var proto := FilterOf(c.proto).value;
      forall cpu | 0 <= cpu < cpus
        ensures Masked(m.ports[c.dport], c, proto)[cpu] == MaskLeft(m.ports[c.dport][cpu], c)
      {
        MaskLeftIs(m.ports[c.dport][cpu], c, proto);
      }
    }
  }

  /** The answer tells whether all that was asked for is done, or the update was refused as one of an existing key. */
  lemma PortExitIff(c: PortCall)
    ensures PortExit(c) == FailOption <==> !KnownCall(c)
    ensures PortExit(c) == FailPort <==> KnownCall(c) && c.dport > 65535
    ensures PortExit(c) == ExitOk <==>
            (Writes(c) && (c.action == 2 ==> ClearsToo(c))) ||
            (KnownCall(c) && c.dport <= 65535 && c.updateRefused == Some(17))
    ensures PortExit(c) != FailIp
  {
  }

  /**
   An address call that is answered with success has done its work, but for an update refused as one
   of an existing key.
   */
  lemma AddressCallIs(m: Maps, cpus: nat, c: AddressCall)
    requires Shaped(m, cpus)
    ensures AddressExit(m, c) == FailIp <==> c.ip.None?
    ensures AddressExit(m, c) == FailOption <==> c.ip.Some? && c.action != 1 && c.action != 2
    ensures AddressExit(m, c) == ExitOk && c.refused != Some(17) ==>
      (c.ip.value in AfterAddress(m, cpus, c).blacklist <==> c.action == 1)
    ensures AddressExit(m, c) != ExitOk ==> AfterAddress(m, cpus, c) == m
    ensures
      var t := AfterAddress(m, cpus, c);
      t == m.(blacklist := t.blacklist) &&
      (forall ip :: ip in m.blacklist && Some(ip) != c.ip ==>
        ip in t.blacklist && t.blacklist[ip] == m.blacklist[ip]) &&
      (forall ip :: ip in t.blacklist ==>
        if ip in m.blacklist then t.blacklist[ip] == m.blacklist[ip]
        else Some(ip) == c.ip && forall cpu :: 0 <= cpu < cpus ==> t.blacklist[ip][cpu] == 0)
  {
  }

  // ----- edits and verdicts -----

  /** The protocol number of the frame, and its destination port, are those of the call. */
  predicate MeantBy(f: Frame, c: PortCall) {
    match f.transport
    case Tcp(_, dport, _, _) => c.proto == 6 && c.dport == dport
    case Udp(_, dport, _, _) => c.proto == 17 && c.dport == dport
    case Raw(_, _) => false
  }

  lemma VerdictAfterCall(m: Maps, cpus: nat, c: PortCall, cpu: nat, f: Frame)
    requires Shaped(m, cpus) && cpu < cpus && GoodFrame(f) && c.lookupRefused.None?
    ensures
      var n := |Encode(f)|;
      VerdictNumber(AfterPort(m, cpus, c), cpus, cpu, f, n) ==
      if Writes(c) && MeantBy(f, c) && SourceKey(f) !in m.blacklist then (if c.action == 1 then 1 else 2)
      else VerdictNumber(m, cpus, cpu, f, n)
  {
    var t := AfterPort(m, cpus, c);
    assert Encode(f)[..|Encode(f)|] == Encode(f);
    VerdictOfCut(m, cpus, cpu, f, |Encode(f)|);
    VerdictOfCut(t, cpus, cpu, f, |Encode(f)|);
    ParseUndoesEncode(f);
    if !f.transport.Raw? {
      EditIsSeen(m, cpus, c, cpu, if f.transport.Tcp? then FilterTcp else FilterUdp, f.transport.dport);
    }
  }

  /** A port edit, and then a frame. */
  method EditThenFilter(filter: Filter, c: PortCall, cpu: nat, f: Frame) returns (exit: Exit, verdict: nat)
    requires filter.Valid() && cpu < filter.cpus && GoodFrame(f) && c.lookupRefused.None?
    modifies filter
    ensures filter.Valid()
    ensures
      verdict ==
      if Writes(c) && MeantBy(f, c) && SourceKey(f) !in old(filter.blacklist) then (if c.action == 1 then 1 else 2)
      else VerdictNumber(old(filter.State()), filter.cpus, cpu, f, |Encode(f)|)
    ensures exit == ExitOk && c.updateRefused.None? ==> Writes(c)
  {
    PortExitIff(c);
    VerdictAfterCall(filter.State(), filter.cpus, c, cpu, f);
    exit := BlacklistPortModify(filter, c);
    verdict := FilterCut(filter, cpu, f, |Encode(f)|);
  }
}
