/** Frames built field by field get the verdict their fields call for. */
module XdpFrames {
  import opened Wrappers
  import opened Bytes
  import opened XdpFilter

  /** An IEEE 802.1Q or 802.1ad tag. */
  datatype Tag = Tag(serviceTag: bool, tci: (byte, byte))

  /** A TCP segment (section 3.1 of RFC 793), a UDP datagram, or anything else. */
  datatype Transport =
    | Tcp(sport: nat, dport: nat, rest: seq<byte>, payload: seq<byte>)
    | Udp(sport: nat, dport: nat, rest: seq<byte>, payload: seq<byte>)
    | Raw(protocol: byte, payload: seq<byte>)

  /** An Ethernet frame with an IPv4 header of five words (section 3.1 of RFC 791). */
  datatype Frame = Frame(
    macs: seq<byte>, tags: seq<Tag>,
    ipFront: seq<byte>, checksum: (byte, byte), source: (byte, byte, byte, byte), destination: seq<byte>,
    transport: Transport)

  predicate GoodTransport(t: Transport) {
    match t
    case Tcp(sport, dport, rest, _) => sport < PORTS && dport < PORTS && |rest| == 16
    case Udp(sport, dport, rest, _) => sport < PORTS && dport < PORTS && |rest| == 4
    case Raw(protocol, _) => protocol != 6 && protocol != 17
  }

  predicate GoodFrame(f: Frame) {
    |f.macs| == 12 && |f.tags| <= 2 && |f.ipFront| == 9 && |f.destination| == 4 && GoodTransport(f.transport)
  }

  // ----- bytes on the wire -----

  function Word16(x: nat): seq<byte>
    requires x < PORTS
  {
    [x / 0x100, x % 0x100]
  }

  function EncodeTags(tags: seq<Tag>): (bs: seq<byte>)
    ensures |bs| == 4 * |tags|
  {
    if |tags| == 0 then []
    else
      Word16(if tags[0].serviceTag then 0x88A8 else 0x8100) + [tags[0].tci.0, tags[0].tci.1] +
      EncodeTags(tags[1..])
  }

  function Protocol(t: Transport): byte {
    match t
    case Tcp(_, _, _, _) => 6
    case Udp(_, _, _, _) => 17
    case Raw(protocol, _) => protocol
  }

  function EncodeIp(f: Frame): (bs: seq<byte>)
    requires GoodFrame(f)
    ensures |bs| == 20 && bs[9] == Protocol(f.transport)
    ensures bs[12..16] == [f.source.0, f.source.1, f.source.2, f.source.3]
  {
    f.ipFront + [Protocol(f.transport), f.checksum.0, f.checksum.1] +
    [f.source.0, f.source.1, f.source.2, f.source.3] + f.destination
  }

  function EncodeTransport(t: Transport): seq<byte>
    requires GoodTransport(t)
  {
    match t
    case Tcp(sport, dport, rest, payload) => Word16(sport) + Word16(dport) + rest + payload
    case Udp(sport, dport, rest, payload) => Word16(sport) + Word16(dport) + rest + payload
    case Raw(_, payload) => payload
  }

  function Encode(f: Frame): seq<byte>
    requires GoodFrame(f)
  {
    f.macs + EncodeTags(f.tags) + Word16(0x0800) + EncodeIp(f) + EncodeTransport(f.transport)
  }

  // ----- what the filter should decide -----

  function SourceKey(f: Frame): nat {
    Le32(f.source.0, f.source.1, f.source.2, f.source.3)
  }

  /** The decision on source address, protocol and destination port alone. */
  function Decide(m: Maps, cpus: nat, cpu: nat, source: nat, t: Transport): Action
    requires Shaped(m, cpus) && cpu < cpus && GoodTransport(t)
  {
    if source in m.blacklist then Drop
    else
      match t
      case Tcp(_, dport, _, _) => if PortBlocked(m, cpus, cpu, FilterTcp, dport) then Drop else Pass
      case Udp(_, dport, _, _) => if PortBlocked(m, cpus, cpu, FilterUdp, dport) then Drop else Pass
      case Raw(_, _) => Pass
  }

  // ----- parsing undoes encoding -----

  lemma WordBack(x: nat, bs: seq<byte>, off: nat)
    requires x < PORTS && off + 2 <= |bs| && bs[off..off + 2] == Word16(x)
    ensures TypeAt(bs, off) == x
  {
    assert bs[off] == bs[off..off + 2][0] && bs[off + 1] == bs[off..off + 2][1];
  }

  /** The type in front of the remaining tags. */
  function FirstType(tags: seq<Tag>, ethType: nat): nat {
    if |tags| == 0 then ethType else if tags[0].serviceTag then 0x88A8 else 0x8100
  }

  function Tagged(tags: seq<Tag>, ethType: nat): (bs: seq<byte>)
    requires ethType < PORTS
    ensures |bs| == 4 * |tags| + 2
  {
    EncodeTags(tags) + Word16(ethType)
  }

  lemma FirstWord(tags: seq<Tag>, ethType: nat)
    requires ethType < PORTS
    ensures Tagged(tags, ethType)[..2] == Word16(FirstType(tags, ethType))
    ensures |tags| > 0 ==> Tagged(tags, ethType)[4..] == Tagged(tags[1..], ethType)
  {
  }

  /** From `at` on the frame holds `bs`, as far as it goes. */
  predicate Holds(frame: seq<byte>, at: nat, bs: seq<byte>) {
    at <= |frame| && if |frame| - at < |bs| then frame[at..] == bs[..|frame| - at] else frame[at..at + |bs|] == bs
  }

  lemma HoldsTail(frame: seq<byte>, at: nat, bs: seq<byte>, k: nat)
    requires Holds(frame, at, bs) && k <= |bs| && at + k <= |frame|
    ensures Holds(frame, at + k, bs[k..]) && frame[at..at + k] == bs[..k]
  {
    if |frame| - at < |bs| {
      assert frame[at..at + k] == frame[at..][..k];
      assert frame[at + k..] == frame[at..][k..];
    } else {
      assert frame[at..at + k] == frame[at..at + |bs|][..k];
      assert frame[at + k..at + |bs|] == frame[at..at + |bs|][k..];
    }
  }

  /** The tags are those that are skipped: at most `n`, and with fewer no tag follows. */
  predicate TypeEnds(tags: seq<Tag>, ethType: nat, n: nat) {
    |tags| <= n && ethType < PORTS && (|tags| < n ==> ethType != 0x8100 && ethType != 0x88A8)
  }

  lemma TagStep(bs: seq<byte>, off: nat, tags: seq<Tag>, ethType: nat)
    requires ethType < PORTS && |tags| > 0 && 2 <= off && off + 4 <= |bs| && Holds(bs, off - 2, Tagged(tags, ethType))
    ensures Holds(bs, off + 2, Tagged(tags[1..], ethType)) && TypeAt(bs, off + 2) == FirstType(tags[1..], ethType)
  {
    FirstWord(tags, ethType);
    FirstWord(tags[1..], ethType);
    HoldsTail(bs, off - 2, Tagged(tags, ethType), 4);
    HoldsTail(bs, off + 2, Tagged(tags[1..], ethType), 2);
    WordBack(FirstType(tags[1..], ethType), bs, off + 2);
  }

  /** Tags in the bytes are skipped one by one, down to the type behind them, if the frame reaches so far. */
  lemma {:induction false} TagsBack(bs: seq<byte>, off: nat, tags: seq<Tag>, ethType: nat, n: nat)
    requires TypeEnds(tags, ethType, n) && 2 <= off <= |bs| && Holds(bs, off - 2, Tagged(tags, ethType))
    ensures SkipTags(bs, FirstType(tags, ethType), off, n) ==
            if |bs| < off + 4 * |tags| then None else Some((ethType, off + 4 * |tags|))
    decreases |tags|
  {
    if |tags| > 0 && off + 4 <= |bs| {
      TagStep(bs, off, tags, ethType);
      TagsBack(bs, off + 4, tags[1..], ethType, n - 1);
    }
  }

  /** The front of a frame with any type. */
  lemma EthBack(bs: seq<byte>, tags: seq<Tag>, ethType: nat)
    requires TypeEnds(tags, ethType, 2) && (|bs| >= 12 ==> Holds(bs, 12, Tagged(tags, ethType)))
    ensures EthOf(bs) ==
            if |bs| < 14 + 4 * |tags| || FirstType(tags, ethType) < 0x600 then None
            else Some((ethType, 14 + 4 * |tags|))
  {
    if |bs| >= 14 {
      FirstWord(tags, ethType);
      HoldsTail(bs, 12, Tagged(tags, ethType), 2);
      WordBack(FirstType(tags, ethType), bs, 12);
      TagsBack(bs, ETH_HEADER, tags, ethType, 2);
    }
  }

  /** Where the IPv4 header of a frame starts. */
  function L3(f: Frame): nat {
    14 + 4 * |f.tags|
  }

  /** Three pieces of a frame that is cut off anywhere. */
  lemma CutPieces(front: seq<byte>, middle: seq<byte>, back: seq<byte>, n: nat)
    requires n <= |front + middle + back|
    ensures
      var bs := (front + middle + back)[..n];
      (n >= |front| ==> Holds(bs, |front|, middle)) &&
      (n >= |front| + |middle| ==> bs[|front| + |middle|..] == back[..n - |front| - |middle|])
  {
    var all := front + middle + back;
    assert all[|front|..|front| + |middle|] == middle && all[|front| + |middle|..] == back;
    if |front| <= n < |front| + |middle| {
      assert all[..n][|front|..] == all[|front|..|front| + |middle|][..n - |front|];
    } else if n >= |front| + |middle| {
      assert all[..n][|front|..|front| + |middle|] == all[|front|..|front| + |middle|];
      assert all[..n][|front| + |middle|..] == all[|front| + |middle|..][..n - |front| - |middle|];
    }
  }

  /** The parts of a frame that is cut off anywhere. */
  lemma CutParts(f: Frame, n: nat)
    requires GoodFrame(f) && n <= |Encode(f)|
    ensures |Encode(f)| == L3(f) + 20 + |EncodeTransport(f.transport)|
    ensures n >= 12 ==> Holds(Encode(f)[..n], 12, Tagged(f.tags, 0x0800))
    ensures n >= L3(f) + 20 ==>
      Encode(f)[..n][L3(f)..L3(f) + 20] == EncodeIp(f) &&
      Encode(f)[..n][L3(f) + 20..] == EncodeTransport(f.transport)[..n - L3(f) - 20]
  {
    var tagged, ip, transport := Tagged(f.tags, 0x0800), EncodeIp(f), EncodeTransport(f.transport);
    assert Encode(f) == f.macs + tagged + (ip + transport);
    CutPieces(f.macs, tagged, ip + transport, n);
    assert Encode(f) == f.macs + tagged + ip + transport;
    CutPieces(f.macs + tagged, ip, transport, n);
  }

  /** The header is read back. */
  lemma IpBack(bs: seq<byte>, l3: nat, f: Frame)
    requires GoodFrame(f) && l3 + 20 <= |bs| && bs[l3..l3 + 20] == EncodeIp(f)
    ensures bs[l3 + 9] == Protocol(f.transport) && SaddrAt(bs, l3) == SourceKey(f)
  {
    var ip := EncodeIp(f);
    assert bs[l3 + 9] == bs[l3..l3 + 20][9];
    forall i | 0 <= i < 4
      ensures bs[l3 + 12 + i] == ip[12..16][i]
    {
      assert bs[l3 + 12 + i] == bs[l3..l3 + 20][12 + i];
    }
  }

  /** What the parser finds behind the IPv4 header, of which `k` bytes are there. */
  function Found(t: Transport, k: nat): Layer4
    requires GoodTransport(t)
  {
    match t
    case Tcp(_, dport, _, _) => if k < 20 then Short else Port(FilterTcp, dport)
    case Udp(_, dport, _, _) => if k < 8 then Short else Port(FilterUdp, dport)
    case Raw(_, _) => OtherProto
  }

  lemma TransportBack(bs: seq<byte>, l4: nat, t: Transport)
    requires GoodTransport(t) && l4 <= |bs| <= l4 + |EncodeTransport(t)|
    requires bs[l4..] == EncodeTransport(t)[..|bs| - l4]
    ensures Layer4Of(bs, Protocol(t), l4) == Found(t, |bs| - l4)
  {
    if !t.Raw? && |bs| >= l4 + 8 {
      var all := EncodeTransport(t);
      assert all[2..4] == Word16(t.dport);
      assert bs[l4..][2..4] == all[..|bs| - l4][2..4] == all[2..4];
      assert bs[l4 + 2..l4 + 4] == bs[l4..][2..4];
      WordBack(t.dport, bs, l4 + 2);
    }
  }

  /** What the parser makes of the first `n` bytes of a built frame. */
  lemma ParseCut(f: Frame, n: nat)
    requires GoodFrame(f) && n <= |Encode(f)|
    ensures Parse(Encode(f)[..n]) ==
            if n < L3(f) then NotParsed
            else if n < L3(f) + 20 then ShortIp
            else Ipv4(SourceKey(f), Found(f.transport, n - L3(f) - 20))
  {
    var bs := Encode(f)[..n];
    CutParts(f, n);
    EthBack(bs, f.tags, 0x0800);
    if n >= L3(f) + 20 {
      IpBack(bs, L3(f), f);
      TransportBack(bs, L3(f) + 20, f.transport);
    }
  }

  /** Parsing a built frame gives back its source, protocol and destination port. */
  lemma ParseUndoesEncode(f: Frame)
    requires GoodFrame(f)
    ensures Parse(Encode(f))
         == Ipv4(SourceKey(f),
                 match f.transport
                 case Tcp(_, dport, _, _) => Port(FilterTcp, dport)
                 case Udp(_, dport, _, _) => Port(FilterUdp, dport)
                 case Raw(_, _) => OtherProto)
  {
    CutParts(f, |Encode(f)|);
    ParseCut(f, |Encode(f)|);
    assert Encode(f)[..|Encode(f)|] == Encode(f);
  }

  /** The filter's verdict on a built frame is the decision on its fields. */
  lemma VerdictIsDecision(m: Maps, cpus: nat, cpu: nat, f: Frame)
    requires Shaped(m, cpus) && cpu < cpus && GoodFrame(f)
    ensures Verdict(m, cpus, cpu, Parse(Encode(f))) == Decide(m, cpus, cpu, SourceKey(f), f.transport)
  {
    ParseUndoesEncode(f);
  }
}
