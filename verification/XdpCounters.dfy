/**
 Every drop is counted twice, once by cause and once by verdict.  The counters of ports are
 incremented as 32-bit words, all others as 64-bit words, so the two accounts agree modulo 2^32,
 and modulo 2^64 as long as no port counter wraps.
 */
module XdpCounters {
  import opened Bytes
  import opened Counters64
  import opened MapSums
  import opened XdpFilter

  // ----- sums over CPUs and keys -----

  function RowSum(v: seq<nat>): nat {
    if |v| == 0 then 0 else v[0] + RowSum(v[1..])
  }

  function TableSum(t: seq<seq<nat>>): nat {
    if |t| == 0 then 0 else RowSum(t[0]) + TableSum(t[1..])
  }

  ghost function ByRow(): (nat, seq<nat>) -> nat {
    (k: nat, v: seq<nat>) => RowSum(v)
  }

  ghost function HashSum(m: map<nat, seq<nat>>): nat {
    Sum(m, ByRow())
  }

  lemma {:induction false} RowUpdate(v: seq<nat>, i: nat, x: nat)
    requires i < |v|
    ensures RowSum(v[i := x]) + v[i] == RowSum(v) + x
  {
    if i > 0 {
      RowUpdate(v[1..], i - 1, x);
      assert v[i := x][1..] == v[1..][i - 1 := x];
    } else {
      assert v[0 := x][1..] == v[1..];
    }
  }

  lemma {:induction false} TableUpdate(t: seq<seq<nat>>, k: nat, row: seq<nat>)
    requires k < |t|
    ensures TableSum(t[k := row]) + RowSum(t[k]) == TableSum(t) + RowSum(row)
  {
    if k > 0 {
      TableUpdate(t[1..], k - 1, row);
      assert t[k := row][1..] == t[1..][k - 1 := row];
    } else {
      assert t[0 := row][1..] == t[1..];
    }
  }

  /** One increment of a 64-bit counter. */
  lemma IncrementAddsOne(x: nat)
    ensures Same64((x + 1) % TWO_64, x + 1)
  {
    Same64Iff((x + 1) % TWO_64, x + 1);
  }

  lemma RowStoreAdds(v: seq<nat>, i: nat, x: nat)
    requires i < |v| && Same64(x, v[i] + 1)
    ensures Same64(RowSum(v[i := x]), RowSum(v) + 1)
  {
    RowUpdate(v, i, x);
    Shift(RowSum(v), RowSum(v[i := x]), v[i], x, 1);
  }

  lemma BumpAddsOne(v: seq<nat>, cpu: nat)
    requires cpu < |v|
    ensures Same64(RowSum(Bump(v, cpu)), RowSum(v) + 1)
  {
    IncrementAddsOne(v[cpu]);
    RowStoreAdds(v, cpu, (v[cpu] + 1) % TWO_64);
  }

  lemma BumpAtAddsOne(t: seq<seq<nat>>, key: nat, cpu: nat)
    requires key < |t| && cpu < |t[key]|
    ensures Same64(TableSum(BumpAt(t, key, cpu)), TableSum(t) + 1)
  {
    TableUpdate(t, key, Bump(t[key], cpu));
    BumpAddsOne(t[key], cpu);
    Shift(TableSum(t), TableSum(BumpAt(t, key, cpu)), RowSum(t[key]), RowSum(Bump(t[key], cpu)), 1);
  }

  lemma HashBumpAddsOne(m: map<nat, seq<nat>>, ip: nat, cpu: nat)
    requires ip in m && cpu < |m[ip]|
    ensures Same64(HashSum(m[ip := Bump(m[ip], cpu)]), HashSum(m) + 1)
  {
    SumStore(m, ByRow(), ip, Bump(m[ip], cpu));
    BumpAddsOne(m[ip], cpu);
    Shift(HashSum(m), HashSum(m[ip := Bump(m[ip], cpu)]), RowSum(m[ip]), RowSum(Bump(m[ip], cpu)), 1);
  }

  /** A 32-bit increment adds one, or takes away 2^32 - 1. */
  lemma LowAdds(t: seq<seq<nat>>, key: nat, cpu: nat)
    requires key < |t| && cpu < |t[key]|
    ensures
      TableSum(BumpLow(t, key, cpu)) + (if t[key][cpu] % TWO_32 == TWO_32 - 1 then TWO_32 else 0) == TableSum(t) + 1
  {
    var x := NextLow(t[key][cpu]);
    RowUpdate(t[key], cpu, x);
    TableUpdate(t, key, t[key][cpu := x]);
  }

  // ----- the two accounts -----

  /** Drops by cause: source addresses, TCP ports, UDP ports. */
  ghost function DropsByCause(m: Maps): nat {
    HashSum(m.blacklist) + TableSum(m.tcpDrops) + TableSum(m.udpDrops)
  }

  function DropVerdicts(m: Maps): nat
    requires |m.verdicts| == XDP_ACTION_MAX
  {
    RowSum(m.verdicts[Index(Drop)])
  }

  ghost predicate Reconciled(m: Maps)
    requires |m.verdicts| == XDP_ACTION_MAX
  {
    Same64(DropsByCause(m), DropVerdicts(m))
  }

  /** The causes are `lost` behind the verdicts. */
  ghost predicate Behind(m: Maps, lost: nat)
    requires |m.verdicts| == XDP_ACTION_MAX
  {
    Same64(DropsByCause(m) + lost, DropVerdicts(m))
  }

  /** Accounts that are `lost` apart are level exactly if that is a whole number of wraps. */
  lemma BehindIff(m: Maps, lost: nat)
    requires |m.verdicts| == XDP_ACTION_MAX && Behind(m, lost)
    ensures Reconciled(m) <==> lost % TWO_64 == 0
  {
    Same64Iff(DropsByCause(m) + lost, DropVerdicts(m));
    Same64Iff(DropsByCause(m), DropVerdicts(m));
  }

  /** All verdict counters together have counted `frames` frames. */
  ghost predicate Counted(m: Maps, frames: nat) {
    Same64(TableSum(m.verdicts), frames)
  }

  /** The drop counter of a port on a CPU. */
  function Slot(m: Maps, cpus: nat, cpu: nat, proto: FilterProto, port: nat): nat
    requires Shaped(m, cpus) && cpu < cpus && port < PORTS
  {
    if proto.FilterTcp? then m.tcpDrops[port][cpu] else m.udpDrops[port][cpu]
  }

  /** The frame is dropped for its port, whose counter is at the end of its 32 bits. */
  predicate WrapsSlot(m: Maps, cpus: nat, cpu: nat, p: Parsed)
    requires Shaped(m, cpus) && cpu < cpus
    requires p.Ipv4? && p.layer4.Port? ==> p.layer4.dport < PORTS
  {
    Verdict(m, cpus, cpu, p) == Drop && p.saddr !in m.blacklist &&
    Slot(m, cpus, cpu, p.layer4.proto, p.layer4.dport) % TWO_32 == TWO_32 - 1
  }

  /** What the causes lose when a frame arrives. */
  function Loss(m: Maps, cpus: nat, cpu: nat, frame: seq<byte>): nat
    requires Shaped(m, cpus) && cpu < cpus
  {
    if WrapsSlot(m, cpus, cpu, Parse(frame)) then TWO_32 else 0
  }

  lemma CountDropAdds(m: Maps, cpus: nat, cpu: nat, p: Parsed)
    requires Shaped(m, cpus) && cpu < cpus
    requires p.Ipv4? && p.layer4.Port? ==> p.layer4.dport < PORTS
    ensures Same64(DropsByCause(CountDrop(m, cpus, cpu, p)) + (if WrapsSlot(m, cpus, cpu, p) then TWO_32 else 0),
                   DropsByCause(m) + if Verdict(m, cpus, cpu, p) == Drop then 1 else 0)
  {
    var h, t, u := HashSum(m.blacklist), TableSum(m.tcpDrops), TableSum(m.udpDrops);
    if Verdict(m, cpus, cpu, p) != Drop {
      SameSelf(DropsByCause(m));
    } else if p.saddr in m.blacklist {
      HashBumpAddsOne(m.blacklist, p.saddr, cpu);
      AddBoth(h, t + u, HashSum(m.blacklist[p.saddr := Bump(m.blacklist[p.saddr], cpu)]), 1);
    } else {
      if p.layer4.proto.FilterTcp? {
        LowAdds(m.tcpDrops, p.layer4.dport, cpu);
      } else {
        LowAdds(m.udpDrops, p.layer4.dport, cpu);
      }
      SameSelf(DropsByCause(m) + 1);
    }
  }

  lemma VerdictAdds(verdicts: seq<seq<nat>>, cpus: nat, cpu: nat, a: Action)
    requires Table(verdicts, XDP_ACTION_MAX, cpus) && cpu < cpus
    ensures Same64(RowSum(BumpAt(verdicts, Index(a), cpu)[Index(Drop)]),
                   RowSum(verdicts[Index(Drop)]) + if a == Drop then 1 else 0)
  {
    BumpAddsOne(verdicts[Index(Drop)], cpu);
    SameSelf(RowSum(verdicts[Index(Drop)]));
  }

  /** A frame moves both accounts alike, but for what the causes lose. */
  lemma FrameFallsBehind(m: Maps, cpus: nat, cpu: nat, frame: seq<byte>, lost: nat)
    requires Shaped(m, cpus) && cpu < cpus && Behind(m, lost)
    ensures Behind(AfterFrame(m, cpus, cpu, frame), lost + Loss(m, cpus, cpu, frame))
  {
    var p := Parse(frame);
    if !p.NotParsed? {
      var a, t, after := Verdict(m, cpus, cpu, p), CountDrop(m, cpus, cpu, p), AfterFrame(m, cpus, cpu, frame);
      var d, loss := DropsByCause(m), Loss(m, cpus, cpu, frame);
      var drop := if a == Drop then 1 else 0;
      CountDropAdds(m, cpus, cpu, p);
      VerdictAdds(m.verdicts, cpus, cpu, a);
      assert DropsByCause(after) == DropsByCause(t);
      AddBoth(d, lost, DropsByCause(t) + loss, drop);
      BothMove(d + lost, DropVerdicts(m), DropsByCause(t) + loss + lost, DropVerdicts(after), drop);
    }
  }

  /** So a frame keeps level accounts level exactly if it wraps no port counter. */
  lemma FrameReconcilesIff(m: Maps, cpus: nat, cpu: nat, frame: seq<byte>)
    requires Shaped(m, cpus) && cpu < cpus && Reconciled(m)
    ensures Reconciled(AfterFrame(m, cpus, cpu, frame)) <==> !WrapsSlot(m, cpus, cpu, Parse(frame))
  {
    FrameFallsBehind(m, cpus, cpu, frame, 0);
    BehindIff(AfterFrame(m, cpus, cpu, frame), Loss(m, cpus, cpu, frame));
  }

  /** A frame adds one verdict if its Ethernet part can be parsed, and none otherwise. */
  lemma FrameIsCounted(m: Maps, cpus: nat, cpu: nat, frame: seq<byte>, frames: nat)
    requires Shaped(m, cpus) && cpu < cpus && Counted(m, frames)
    ensures Counted(AfterFrame(m, cpus, cpu, frame), frames + if EthOf(frame).Some? then 1 else 0)
  {
    var p := Parse(frame);
    if !p.NotParsed? {
      var a := Verdict(m, cpus, cpu, p);
      BumpAtAddsOne(m.verdicts, Index(a), cpu);
      BothMove(TableSum(m.verdicts), frames, TableSum(BumpAt(m.verdicts, Index(a), cpu)), frames + 1, 1) by {
        SameSelf(frames + 1);
      }
    }
  }

  // ----- runs -----

  /** A frame on some CPU, a new address on the blacklist, or a new port mask; nothing is deleted. */
  datatype Event =
    | Arrives(cpu: nat, frame: seq<byte>)
    | AddAddress(ip: nat)
    | SetMask(port: nat, mask: bv64)

  function Next(m: Maps, cpus: nat, e: Event): (t: Maps)
    requires Shaped(m, cpus)
    ensures Shaped(t, cpus)
  {
    match e
    case Arrives(cpu, frame) => if cpu < cpus then AfterFrame(m, cpus, cpu, frame) else m
    case AddAddress(ip) => if ip in m.blacklist then m else m.(blacklist := m.blacklist[ip := seq(cpus, _ => 0)])
    case SetMask(port, mask) => if port < PORTS then m.(ports := m.ports[port := seq(cpus, _ => mask)]) else m
  }

  function Run(m: Maps, cpus: nat, events: seq<Event>): (t: Maps)
    requires Shaped(m, cpus)
    ensures Shaped(t, cpus)
    decreases |events|
  {
    if |events| == 0 then m else Run(Next(m, cpus, events[0]), cpus, events[1..])
  }

  /** How many frames of a run the filter counts a verdict for. */
  function ParsedFrames(cpus: nat, events: seq<Event>): nat {
    if |events| == 0 then 0
    else
      (if events[0].Arrives? && events[0].cpu < cpus && EthOf(events[0].frame).Some? then 1 else 0) +
      ParsedFrames(cpus, events[1..])
  }

  lemma {:induction false} ZeroRow(n: nat)
    ensures RowSum(seq(n, _ => 0)) == 0
  {
    if n > 0 {
      ZeroRow(n - 1);
      assert seq(n, _ => 0)[1..] == seq(n - 1, _ => 0);
    }
  }

  /** A new address or mask leaves both accounts as they are. */
  lemma EditKeepsAccounts(m: Maps, cpus: nat, e: Event)
    requires Shaped(m, cpus) && !e.Arrives?
    ensures DropsByCause(Next(m, cpus, e)) == DropsByCause(m) && Next(m, cpus, e).verdicts == m.verdicts
  {
    if e.AddAddress? && e.ip !in m.blacklist {
      ZeroRow(cpus);
      SumStore(m.blacklist, ByRow(), e.ip, seq(cpus, _ => 0));
    }
  }

  /** How many port counters wrap during a run. */
  function Wraps(m: Maps, cpus: nat, events: seq<Event>): nat
    requires Shaped(m, cpus)
    decreases |events|
  {
    if |events| == 0 then 0
    else
      var e := events[0];
      (if e.Arrives? && e.cpu < cpus && WrapsSlot(m, cpus, e.cpu, Parse(e.frame)) then 1 else 0) +
      Wraps(Next(m, cpus, e), cpus, events[1..])
  }

  lemma EventFallsBehind(m: Maps, cpus: nat, e: Event, lost: nat)
    requires Shaped(m, cpus) && Behind(m, lost)
    ensures Behind(Next(m, cpus, e),
                   lost + if e.Arrives? && e.cpu < cpus then Loss(m, cpus, e.cpu, e.frame) else 0)
  {
    if !e.Arrives? {
      EditKeepsAccounts(m, cpus, e);
    } else if e.cpu < cpus {
      FrameFallsBehind(m, cpus, e.cpu, e.frame, lost);
    }
  }

  lemma {:induction false} RunFallsBehind(m: Maps, cpus: nat, events: seq<Event>, lost: nat)
    requires Shaped(m, cpus) && Behind(m, lost)
    ensures Behind(Run(m, cpus, events), lost + Wraps(m, cpus, events) * TWO_32)
    decreases |events|
  {
    if |events| > 0 {
      var e := events[0];
      var loss := if e.Arrives? && e.cpu < cpus then Loss(m, cpus, e.cpu, e.frame) else 0;
      EventFallsBehind(m, cpus, e, lost);
      RunFallsBehind(Next(m, cpus, e), cpus, events[1..], lost + loss);
    }
  }

  lemma WholeTurns(w: nat)
    ensures (w * TWO_32) % TWO_64 == 0 <==> w % TWO_32 == 0
  {
  }

  /**
   Over every multi-CPU run without deletions, accounts that were level modulo 2^64 are so
   afterwards exactly if the number of port counters that wrapped is a multiple of 2^32.
   */
  lemma DropsReconcileIff(m: Maps, cpus: nat, events: seq<Event>)
    requires Shaped(m, cpus) && DropsByCause(m) % TWO_64 == DropVerdicts(m) % TWO_64
    ensures
      var t := Run(m, cpus, events);
      DropsByCause(t) % TWO_64 == DropVerdicts(t) % TWO_64 <==> Wraps(m, cpus, events) % TWO_32 == 0
  {
    var t, w := Run(m, cpus, events), Wraps(m, cpus, events);
    Same64Iff(DropsByCause(m), DropVerdicts(m));
    RunFallsBehind(m, cpus, events, 0);
    BehindIff(t, w * TWO_32);
    Same64Iff(DropsByCause(t), DropVerdicts(t));
    WholeTurns(w);
  }

  /** How far the causes are behind if the accounts are level modulo 2^32. */
  lemma LevelLow(d: nat, v: nat) returns (k: nat)
    requires d % TWO_32 == v % TWO_32
    ensures Same64(d + k * TWO_32, v)
  {
    var j := v / TWO_32 - d / TWO_32;
    k := j % TWO_32;
    assert d + k * TWO_32 == v + Turns(-(j / TWO_32));
  }

  lemma LowOfSame(x: nat, w: nat, y: nat)
    requires Same64(x + w * TWO_32, y)
    ensures x % TWO_32 == y % TWO_32
  {
    var k :| x + w * TWO_32 == y + Turns(k);
    assert x == y + (k * TWO_32 - w) * TWO_32;
  }

  /** Over every such run, however many counters wrap, drops by cause equal drop verdicts modulo 2^32. */
  lemma DropsReconcile(m: Maps, cpus: nat, events: seq<Event>)
    requires Shaped(m, cpus) && DropsByCause(m) % TWO_32 == DropVerdicts(m) % TWO_32
    ensures
      var t := Run(m, cpus, events);
      DropsByCause(t) % TWO_32 == DropVerdicts(t) % TWO_32
  {
    var t, w := Run(m, cpus, events), Wraps(m, cpus, events);
    var k := LevelLow(DropsByCause(m), DropVerdicts(m));
    RunFallsBehind(m, cpus, events, k * TWO_32);
    assert k * TWO_32 + w * TWO_32 == (k + w) * TWO_32;
    LowOfSame(DropsByCause(t), k + w, DropVerdicts(t));
  }

  // ----- a run that wraps a counter -----

  /** A frame dropped for its port changes nothing but two counters. */
  lemma PortDrop(m: Maps, cpus: nat, cpu: nat, frame: seq<byte>)
    requires Shaped(m, cpus) && cpu < cpus && DropsForPort(m, cpus, cpu, Parse(frame))
    ensures
      var p, t := Parse(frame), AfterFrame(m, cpus, cpu, frame);
      t.blacklist == m.blacklist && t.ports == m.ports && DropsForPort(t, cpus, cpu, p) &&
      Slot(t, cpus, cpu, p.layer4.proto, p.layer4.dport) == NextLow(Slot(m, cpus, cpu, p.layer4.proto, p.layer4.dport))
  {
  }

  predicate DropsForPort(m: Maps, cpus: nat, cpu: nat, p: Parsed)
    requires Shaped(m, cpus) && cpu < cpus
  {
    p.Ipv4? && p.layer4.Port? && p.layer4.dport < PORTS && p.saddr !in m.blacklist &&
    PortBlocked(m, cpus, cpu, p.layer4.proto, p.layer4.dport)
  }

  /** As many equal frames as the slot has room for, and one more. */
  lemma {:induction false} EqualFramesWrapOnce(m: Maps, cpus: nat, cpu: nat, frame: seq<byte>, n: nat)
    requires Shaped(m, cpus) && cpu < cpus && DropsForPort(m, cpus, cpu, Parse(frame))
    requires n > 0 && Slot(m, cpus, cpu, Parse(frame).layer4.proto, Parse(frame).layer4.dport) + n == TWO_32
    ensures Wraps(m, cpus, seq(n, _ => Arrives(cpu, frame))) == 1
    decreases n
  {
    OneFrameFirst(m, cpus, cpu, frame, n);
    if n > 1 {
      PortDrop(m, cpus, cpu, frame);
      EqualFramesWrapOnce(AfterFrame(m, cpus, cpu, frame), cpus, cpu, frame, n - 1);
    }
  }

  lemma OneFrameFirst(m: Maps, cpus: nat, cpu: nat, frame: seq<byte>, n: nat)
    requires Shaped(m, cpus) && cpu < cpus && n > 0
    ensures Wraps(m, cpus, seq(n, _ => Arrives(cpu, frame))) ==
            (if WrapsSlot(m, cpus, cpu, Parse(frame)) then 1 else 0) +
            Wraps(AfterFrame(m, cpus, cpu, frame), cpus, seq(n - 1, _ => Arrives(cpu, frame)))
  {
    assert seq(n, _ => Arrives(cpu, frame))[1..] == seq(n - 1, _ => Arrives(cpu, frame));
  }

  /** 2^32 drops of one kind, on a counter that starts at zero, put level accounts out of balance. */
  lemma FourBillionDropsUnbalance(m: Maps, cpus: nat, cpu: nat, frame: seq<byte>)
    requires Shaped(m, cpus) && cpu < cpus && DropsForPort(m, cpus, cpu, Parse(frame)) && Reconciled(m)
    requires Slot(m, cpus, cpu, Parse(frame).layer4.proto, Parse(frame).layer4.dport) == 0
    ensures !Reconciled(Run(m, cpus, seq(TWO_32, _ => Arrives(cpu, frame))))
  {
    var events := seq(TWO_32, _ => Arrives(cpu, frame));
    EqualFramesWrapOnce(m, cpus, cpu, frame, TWO_32);
    Same64Iff(DropsByCause(m), DropVerdicts(m));
    DropsReconcileIff(m, cpus, events);
    Same64Iff(DropsByCause(Run(m, cpus, events)), DropVerdicts(Run(m, cpus, events)));
  }

  lemma {:induction false} RunCounts(m: Maps, cpus: nat, events: seq<Event>, frames: nat)
    requires Shaped(m, cpus) && Counted(m, frames)
    ensures Counted(Run(m, cpus, events), frames + ParsedFrames(cpus, events))
    decreases |events|
  {
    if |events| > 0 {
      var e := events[0];
      if e.Arrives? && e.cpu < cpus {
        FrameIsCounted(m, cpus, e.cpu, e.frame, frames);
        RunCounts(Next(m, cpus, e), cpus, events[1..], frames + if EthOf(e.frame).Some? then 1 else 0);
      } else {
        RunCounts(Next(m, cpus, e), cpus, events[1..], frames);
      }
    }
  }

  /** Over every such run the verdict counters together grow by the number of frames that were parsed. */
  lemma VerdictsCountParsedFrames(m: Maps, cpus: nat, events: seq<Event>)
    requires Shaped(m, cpus)
    ensures
      TableSum(Run(m, cpus, events).verdicts) % TWO_64 == (TableSum(m.verdicts) + ParsedFrames(cpus, events)) % TWO_64
  {
    var frames := TableSum(m.verdicts);
    SameSelf(frames);
    RunCounts(m, cpus, events, frames);
    Same64Iff(TableSum(Run(m, cpus, events).verdicts), frames + ParsedFrames(cpus, events));
  }

  // ----- deletions -----

  /** Forgetting drops puts the causes behind by as many. */
  lemma ForgettingFallsBehind(m: Maps, t: Maps, part: nat, lost: nat)
    requires |m.verdicts| == XDP_ACTION_MAX && Behind(m, lost)
    requires t.verdicts == m.verdicts && DropsByCause(m) == DropsByCause(t) + part
    ensures Behind(t, lost + part)
  {
    assert DropsByCause(t) + (lost + part) == DropsByCause(m) + lost;
  }

  /** Taking an address off the blacklist keeps the accounts level exactly if it had dropped nothing, modulo 2^64. */
  lemma DeletingAddressReconcilesIff(m: Maps, cpus: nat, ip: nat)
    requires Shaped(m, cpus) && Reconciled(m) && ip in m.blacklist
    ensures Reconciled(m.(blacklist := m.blacklist - {ip})) <==> RowSum(m.blacklist[ip]) % TWO_64 == 0
  {
    var t := m.(blacklist := m.blacklist - {ip});
    SumPick(m.blacklist, ByRow(), ip);
    ForgettingFallsBehind(m, t, RowSum(m.blacklist[ip]), 0);
    BehindIff(t, RowSum(m.blacklist[ip]));
  }

  /** Clearing a port's counter on every CPU forgets its drops. */
  lemma ClearingForgets(m: Maps, cpus: nat, port: nat)
    requires Shaped(m, cpus) && port < PORTS
    ensures
      DropsByCause(m) == DropsByCause(m.(tcpDrops := m.tcpDrops[port := seq(cpus, _ => 0)])) + RowSum(m.tcpDrops[port])
    ensures
      DropsByCause(m) == DropsByCause(m.(udpDrops := m.udpDrops[port := seq(cpus, _ => 0)])) + RowSum(m.udpDrops[port])
  {
    ZeroRow(cpus);
    TableUpdate(m.tcpDrops, port, seq(cpus, _ => 0));
    TableUpdate(m.udpDrops, port, seq(cpus, _ => 0));
  }

  /** So clearing, as a port deletion does, keeps them level under the same condition. */
  lemma ClearingPortReconcilesIff(m: Maps, cpus: nat, port: nat)
    requires Shaped(m, cpus) && Reconciled(m) && port < PORTS
    ensures
      Reconciled(m.(tcpDrops := m.tcpDrops[port := seq(cpus, _ => 0)])) <==> RowSum(m.tcpDrops[port]) % TWO_64 == 0
    ensures
      Reconciled(m.(udpDrops := m.udpDrops[port := seq(cpus, _ => 0)])) <==> RowSum(m.udpDrops[port]) % TWO_64 == 0
  {
    var t := m.(tcpDrops := m.tcpDrops[port := seq(cpus, _ => 0)]);
    var u := m.(udpDrops := m.udpDrops[port := seq(cpus, _ => 0)]);
    ClearingForgets(m, cpus, port);
    ForgettingFallsBehind(m, t, RowSum(m.tcpDrops[port]), 0);
    ForgettingFallsBehind(m, u, RowSum(m.udpDrops[port]), 0);
    BehindIff(t, RowSum(m.tcpDrops[port]));
    BehindIff(u, RowSum(m.udpDrops[port]));
  }
}
