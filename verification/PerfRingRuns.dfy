/**
 Runs of the perf ring: the kernel appends records, the reader is called with any
 callbacks.  What the reader accepts is always the front of what was produced.
 */
module PerfRingRuns {
  import opened Wrappers
  import opened Bytes
  import opened PerfRing

  /**
   The ring, the length of the scratch buffer, and everything ever produced, handed over and
   accepted.  No length is known any more once a call has left one without a buffer.
   */
  datatype System = System(
    data: seq<byte>, tail: nat, head: nat, scratch: Option<nat>,
    produced: seq<seq<byte>>, handed: seq<seq<byte>>, accepted: seq<seq<byte>>)

  /** An event of the kernel: its type word, its flags, and a body padded to whole words. */
  datatype Sample = Sample(kind: seq<byte>, misc: seq<byte>, body: seq<byte>)

  /** The header says how long the record is, itself included, in 16 bits. */
  predicate Recordable(e: Sample) {
    |e.kind| == 4 && |e.misc| == 2 && |e.body| % 8 == 0 && 8 + |e.body| < 0x1_0000
  }

  /** The record as the kernel writes it: type, flags and size, low byte first, and the body. */
  function Recorded(e: Sample): (r: seq<byte>)
    requires Recordable(e)
    ensures |r| == 8 + |e.body|
  {
    var size := 8 + |e.body|;
    e.kind + e.misc + [size % 0x100, size / 0x100] + e.body
  }

  /** What the kernel writes is what the reader takes for one record. */
  lemma RecordedIsRecord(e: Sample)
    requires Recordable(e)
    ensures IsRecord(Recorded(e))
  {
    var size, r := 8 + |e.body|, Recorded(e);
    assert r[6] == size % 0x100 && r[7] == size / 0x100;
  }

  datatype Event =
    | Append(e: Sample)
    | Read(fn: Callback, memory: bool)

  function Avail(s: System): nat {
    (s.head - s.tail) % TWO_64
  }

  /** Writing bytes one after the other, round the ring. */
  function Write(data: seq<byte>, pos: nat, r: seq<byte>): (w: seq<byte>)
    requires |data| > 0
    ensures |w| == |data|
    decreases |r|
  {
    if |r| == 0 then data
    else Write(data[pos % |data| := r[0]], pos + 1, r[1..])
  }

  function Pending(s: System): seq<seq<byte>>
    requires |s.data| > 0
  {
    var stream := Stream(s.data, s.tail, Avail(s));
    if WholeRecords(stream) then Records(stream) else []
  }

  /** A call of the reader, with callbacks `fn`, and with memory or without. */
  function CallOf(s: System, len: nat, fn: Callback, memory: bool): Call
    requires |s.data| > 0
  {
    Call(|s.data|, s.tail % |s.data|, Pending(s), len, memory, fn)
  }

  /** A record is written at the head. */
  function AfterAppend(s: System, r: seq<byte>): System
    requires |s.data| > 0
  {
    s.(data := Write(s.data, s.head, r), head := (s.head + |r|) % TWO_64, produced := s.produced + [r])
  }

  function AfterCall(s: System, c: Call): System
    requires |s.data| > 0 && c.recs == Pending(s)
  {
    s.(tail := TailAfter(s.tail, c.recs, c.Passed()),
       scratch := if c.Refused() && c.len > 0 then None else Some(c.LenAfter()),
       handed := s.handed + c.Given(),
       accepted := s.accepted + c.recs[..c.Passed()])
  }

  /**
   An event that cannot be recorded or does not fit is not written; a reader whose scratch buffer
   is gone is not called.
   */
  function Step(s: System, e: Event): (t: System)
    requires |s.data| > 0
    ensures |t.data| == |s.data|
  {
    match e
    case Append(e) =>
      if Recordable(e) && Avail(s) + |Recorded(e)| < |s.data| then AfterAppend(s, Recorded(e)) else s
    case Read(fn, memory) =>
      if s.scratch.None? then s else AfterCall(s, CallOf(s, s.scratch.value, fn, memory))
  }

  function Run(s: System, events: seq<Event>): (t: System)
    requires |s.data| > 0
    ensures |t.data| == |s.data|
    decreases |events|
  {
    if |events| == 0 then s else Run(Step(s, events[0]), events[1..])
  }

  function Init(data: seq<byte>): System {
    System(data, 0, 0, Some(0), [], [], [])
  }

  /** The counters of a ring of `size` bytes that is not full. */
  ghost predicate Sound(size: nat, tail: nat, head: nat) {
    size > 0 && size % 8 == 0 && TWO_64 % size == 0 &&
    tail < TWO_64 && head < TWO_64 && tail % 8 == 0 && (head - tail) % TWO_64 < size
  }

  /** `n` bytes from `tail` on hold exactly the records `recs`. */
  ghost predicate Holds(data: seq<byte>, tail: nat, n: nat, recs: seq<seq<byte>>)
    requires |data| > 0
  {
    WholeRecords(Stream(data, tail, n)) && Records(Stream(data, tail, n)) == recs
  }

  /** The ring holds exactly the produced records that have not been accepted. */
  ghost predicate Inv(s: System) {
    Sound(|s.data|, s.tail, s.head) && WholeRecords(Stream(s.data, s.tail, Avail(s))) &&
    s.produced == s.accepted + Pending(s)
  }

  /** The balance, from what the ring holds. */
  lemma Balances(s: System, n: nat, recs: seq<seq<byte>>)
    requires Sound(|s.data|, s.tail, s.head) && n == Avail(s)
    requires Holds(s.data, s.tail, n, recs) && s.produced == s.accepted + recs
    ensures Inv(s)
  {
  }

  lemma InvHolds(s: System)
    requires Inv(s)
    ensures Sound(|s.data|, s.tail, s.head) && Holds(s.data, s.tail, Avail(s), Pending(s))
    ensures s.produced == s.accepted + Pending(s)
  {
  }

  // ----- the kernel's side -----

  lemma {:induction false} WriteSame(data: seq<byte>, x: nat, y: nat, r: seq<byte>)
    requires |data| > 0 && x % |data| == y % |data|
    ensures Write(data, x, r) == Write(data, y, r)
    decreases |r|
  {
    if |r| > 0 {
      SameModAdd(x, y, 1, |data|);
      WriteSame(data[x % |data| := r[0]], x + 1, y + 1, r[1..]);
    }
  }

  /** A byte written behind the last one is the next byte of the stream, and no other changes. */
  lemma WriteOne(data: seq<byte>, pos: nat, n: nat, x: byte, i: nat)
    requires |data| > 0 && i <= n < |data|
    ensures Stream(data[(pos + n) % |data| := x], pos, n + 1)[i] == if i < n then Stream(data, pos, n)[i] else x
  {
    StreamAt(data[(pos + n) % |data| := x], pos, n + 1, i);
    SameSlot(pos + i, pos + n, |data|);
    if i < n {
      StreamAt(data, pos, n, i);
    }
  }

  lemma WriteNext(data: seq<byte>, pos: nat, n: nat, x: byte)
    requires |data| > 0 && n < |data|
    ensures Stream(data[(pos + n) % |data| := x], pos, n + 1) == Stream(data, pos, n) + [x]
  {
    forall i | 0 <= i <= n
      ensures Stream(data[(pos + n) % |data| := x], pos, n + 1)[i] == (Stream(data, pos, n) + [x])[i]
    {
      WriteOne(data, pos, n, x, i);
    }
  }

  /** Writing behind the last byte lengthens the stream and disturbs nothing in it. */
  lemma {:induction false} WriteExtends(data: seq<byte>, pos: nat, n: nat, at: nat, r: seq<byte>)
    requires |data| > 0 && n + |r| <= |data| && at == pos + n
    ensures Stream(Write(data, at, r), pos, n + |r|) == Stream(data, pos, n) + r
    decreases |r|
  {
    if |r| == 0 {
      assert Stream(data, pos, n) + r == Stream(data, pos, n);
    } else {
      WriteNext(data, pos, n, r[0]);
      WriteExtends(data[at % |data| := r[0]], pos, n + 1, at + 1, r[1..]);
      Regroup(Stream(data, pos, n), r);
    }
  }

  lemma Regroup(s: seq<byte>, r: seq<byte>)
    requires |r| > 0
    ensures s + [r[0]] + r[1..] == s + r
  {
  }

  lemma AppendedStream(data: seq<byte>, tail: nat, head: nat, n: nat, r: seq<byte>)
    requires |data| > 0 && TWO_64 % |data| == 0 && n + |r| < |data| && head == (tail + n) % TWO_64
    ensures Stream(Write(data, head, r), tail, n + |r|) == Stream(data, tail, n) + r
  {
    ModMod(tail + n, TWO_64, |data|);
    WriteSame(data, head, tail + n, r);
    WriteExtends(data, tail, n, tail + n, r);
  }

  /** What is pending once the record stands behind the stream. */
  lemma AppendedPending(data: seq<byte>, data': seq<byte>, tail: nat, head: nat, n: nat, recs: seq<seq<byte>>,
                        r: seq<byte>)
    requires |data| > 0 && TWO_64 % |data| == 0 && n + |r| < |data| && head == (tail + n) % TWO_64
    requires Holds(data, tail, n, recs) && IsRecord(r) && data' == Write(data, head, r)
    ensures |data'| == |data| && Holds(data', tail, n + |r|, recs + [r])
  {
    AppendedStream(data, tail, head, n, r);
    RecordsAppend(Stream(data, tail, n), r);
  }

  lemma AppendKeepsSound(size: nat, tail: nat, head: nat, k: nat)
    requires Sound(size, tail, head) && (head - tail) % TWO_64 + k < size
    ensures Sound(size, tail, (head + k) % TWO_64)
    ensures ((head + k) % TWO_64 - tail) % TWO_64 == (head - tail) % TWO_64 + k
  {
    DivisorFits(size);
    HeadAdvances(tail, head, k);
  }

  /** The counters after an append. */
  lemma AppendingMoves(s: System, t: System, n: nat, r: seq<byte>)
    requires Sound(|s.data|, s.tail, s.head) && n == Avail(s) && n + |r| < |s.data|
    requires |t.data| == |s.data| && t.tail == s.tail && t.head == (s.head + |r|) % TWO_64
    ensures Sound(|t.data|, t.tail, t.head) && Avail(t) == n + |r|
  {
    AppendKeepsSound(|s.data|, s.tail, s.head, |r|);
  }

  lemma HeadBehind(s: System, n: nat)
    requires s.tail < TWO_64 && s.head < TWO_64 && n == Avail(s)
    ensures s.head == (s.tail + n) % TWO_64
  {
    HeadIsTailPlus(s.tail, s.head);
  }

  /** A record behind the records the ring holds keeps the balance. */
  lemma AppendingKeepsInv(s: System, t: System, n: nat, recs: seq<seq<byte>>, r: seq<byte>)
    requires Sound(|s.data|, s.tail, s.head) && n == Avail(s) && Holds(s.data, s.tail, n, recs)
    requires s.produced == s.accepted + recs && IsRecord(r) && n + |r| < |s.data|
    requires t.data == Write(s.data, s.head, r) && t.tail == s.tail && t.head == (s.head + |r|) % TWO_64
    requires t.produced == s.produced + [r] && t.accepted == s.accepted
    ensures Inv(t)
  {
    HeadBehind(s, n);
    AppendedPending(s.data, t.data, t.tail, s.head, n, recs, r);
    AppendingMoves(s, t, n, r);
    OneMoreBalance(s.accepted, recs, r);
    Balances(t, n + |r|, recs + [r]);
  }

  lemma OneMoreBalance(accepted: seq<seq<byte>>, recs: seq<seq<byte>>, r: seq<byte>)
    ensures accepted + recs + [r] == accepted + (recs + [r])
  {
  }

  lemma AppendKeepsInv(s: System, e: Sample)
    requires Inv(s) && Recordable(e) && Avail(s) + |Recorded(e)| < |s.data|
    ensures Inv(Step(s, Append(e)))
  {
    InvHolds(s);
    RecordedIsRecord(e);
    AppendingKeepsInv(s, AfterAppend(s, Recorded(e)), Avail(s), Pending(s), Recorded(e));
  }

  lemma DivisorFits(m: int)
    requires m > 0 && TWO_64 % m == 0
    ensures m <= TWO_64
  {
  }

  lemma Distance(tail: nat, head: nat)
    requires tail < TWO_64 && head < TWO_64
    ensures (head - tail) % TWO_64 == if tail <= head then head - tail else head - tail + TWO_64
  {
  }

  lemma Wrapped(x: nat, n: nat)
    requires x < TWO_64 && n < TWO_64
    ensures (x + n) % TWO_64 == if x + n < TWO_64 then x + n else x + n - TWO_64
  {
  }

  lemma HeadAdvances(tail: nat, head: nat, n: nat)
    requires tail < TWO_64 && head < TWO_64 && (head - tail) % TWO_64 + n < TWO_64
    ensures ((head + n) % TWO_64 - tail) % TWO_64 == (head - tail) % TWO_64 + n
  {
    Distance(tail, head);
    Wrapped(head, n);
    Distance(tail, (head + n) % TWO_64);
  }

  // ----- the reader's side -----

  lemma TailAdvances(tail: nat, head: nat, c: nat)
    requires tail < TWO_64 && head < TWO_64 && c <= (head - tail) % TWO_64
    ensures (head - (tail + c) % TWO_64) % TWO_64 == (head - tail) % TWO_64 - c
  {
    Distance(tail, head);
    Wrapped(tail, c);
    Distance((tail + c) % TWO_64, head);
  }

  lemma TailStaysAligned(tail: nat, c: nat)
    requires tail % 8 == 0 && c % 8 == 0
    ensures (tail + c) % TWO_64 % 8 == 0
  {
  }

  lemma {:induction false} ConcatAligned(recs: seq<seq<byte>>)
    requires forall k :: 0 <= k < |recs| ==> IsRecord(recs[k])
    ensures |Concat(recs)| % 8 == 0
  {
    if |recs| > 0 {
      ConcatAligned(recs[1..]);
      AlignedSum(|recs[0]|, |Concat(recs[1..])|);
    }
  }

  lemma DroppedPending(stream: seq<byte>, recs: seq<seq<byte>>, k: nat)
    requires WholeRecords(stream) && recs == Records(stream) && k <= |recs|
    ensures
      var c := |Concat(recs[..k])|;
      c <= |stream| && c % 8 == 0 && WholeRecords(stream[c..]) && Records(stream[c..]) == recs[k..]
  {
    RecordsDrop(stream, k);
    RecordsAreRecords(stream);
    ConcatAligned(recs[..k]);
  }

  lemma StreamBehind(data: seq<byte>, tail: nat, n: nat, c: nat)
    requires |data| > 0 && TWO_64 % |data| == 0 && c <= n
    ensures Stream(data, (tail + c) % TWO_64, n - c) == Stream(data, tail, n)[c..]
  {
    StreamDrop(data, tail, n, c);
    StreamMod(data, tail + c, n - c);
  }

  /** What is pending behind the first `k` records. */
  lemma ReadStream(data: seq<byte>, tail: nat, n: nat, recs: seq<seq<byte>>, k: nat, c: nat)
    requires |data| > 0 && TWO_64 % |data| == 0 && Holds(data, tail, n, recs) && k <= |recs| && c == |Concat(recs[..k])|
    ensures c <= n && c % 8 == 0 && Holds(data, (tail + c) % TWO_64, n - c, recs[k..])
  {
    DroppedPending(Stream(data, tail, n), recs, k);
    StreamBehind(data, tail, n, c);
  }

  lemma PassingKeepsSound(size: nat, tail: nat, head: nat, c: nat)
    requires Sound(size, tail, head) && c <= (head - tail) % TWO_64 && c % 8 == 0
    ensures Sound(size, (tail + c) % TWO_64, head)
    ensures (head - (tail + c) % TWO_64) % TWO_64 == (head - tail) % TWO_64 - c
  {
    TailAdvances(tail, head, c);
    TailStaysAligned(tail, c);
  }

  /** The counters after `c` bytes. */
  lemma PassingMoves(s: System, t: System, n: nat, c: nat)
    requires Sound(|s.data|, s.tail, s.head) && n == Avail(s) && c <= n && c % 8 == 0
    requires t.data == s.data && t.head == s.head && t.tail == (s.tail + c) % TWO_64
    ensures Sound(|t.data|, t.tail, t.head) && Avail(t) == n - c
  {
    PassingKeepsSound(|s.data|, s.tail, s.head, c);
  }

  /** Accepting the first `k` of the records the ring holds keeps the balance. */
  lemma PassingKeepsInv(s: System, t: System, n: nat, recs: seq<seq<byte>>, k: nat, c: nat)
    requires Sound(|s.data|, s.tail, s.head) && n == Avail(s) && Holds(s.data, s.tail, n, recs)
    requires s.produced == s.accepted + recs && k <= |recs| && c == |Concat(recs[..k])|
    requires t.data == s.data && t.head == s.head && t.produced == s.produced
    requires t.tail == (s.tail + c) % TWO_64 && t.accepted == s.accepted + recs[..k]
    ensures Inv(t)
  {
    ReadStream(s.data, s.tail, n, recs, k, c);
    PassingMoves(s, t, n, c);
    SplitBalance(s.accepted, recs, k);
    Balances(t, n - c, recs[k..]);
  }

  lemma AcceptingKeepsInv(s: System, t: System, k: nat)
    requires Inv(s) && k <= |Pending(s)|
    requires t.data == s.data && t.head == s.head && t.produced == s.produced
    requires t.tail == TailAfter(s.tail, Pending(s), k) && t.accepted == s.accepted + Pending(s)[..k]
    ensures Inv(t)
  {
    InvHolds(s);
    PassingKeepsInv(s, t, Avail(s), Pending(s), k, |Concat(Pending(s)[..k])|);
  }

  lemma SplitBalance(accepted: seq<seq<byte>>, recs: seq<seq<byte>>, k: nat)
    requires k <= |recs|
    ensures accepted + recs == accepted + recs[..k] + recs[k..]
  {
  }

  lemma ReadKeepsInv(s: System, fn: Callback, memory: bool)
    requires Inv(s)
    ensures Inv(Step(s, Read(fn, memory)))
  {
    if s.scratch.Some? {
      var c := CallOf(s, s.scratch.value, fn, memory);
      AcceptingKeepsInv(s, AfterCall(s, c), c.Passed());
    }
  }

  // ----- main results -----

  lemma {:induction false} RunKeepsInv(s: System, events: seq<Event>)
    requires Inv(s)
    ensures Inv(Run(s, events))
    decreases |events|
  {
    if |events| > 0 {
      match events[0] {
        case Append(e) =>
          if Recordable(e) && Avail(s) + |Recorded(e)| < |s.data| {
            AppendKeepsInv(s, e);
          }
        case Read(fn, memory) => ReadKeepsInv(s, fn, memory);
      }
      RunKeepsInv(Step(s, events[0]), events[1..]);
    }
  }

  predicate RingSize(size: nat) {
    size > 0 && size % 8 == 0 && TWO_64 % size == 0
  }

  /**
   Whatever the callbacks answer, and whether or not memory lasts, the accepted records followed
   by the ones still in the ring are the produced records: none lost, repeated or out of order.
   */
  lemma AcceptedThenPendingIsProduced(data: seq<byte>, events: seq<Event>)
    requires RingSize(|data|)
    ensures
      var s := Run(Init(data), events);
      s.produced == s.accepted + Pending(s)
  {
    RunKeepsInv(Init(data), events);
  }

  ghost predicate AlwaysContinues(e: Event) {
    e.Read? ==> forall recs :: e.fn(recs) == Cont
  }

  lemma GivenIsPassed(c: Call)
    requires forall recs :: c.fn(recs) == Cont
    ensures c.Given() == c.recs[..c.Passed()]
  {
    assert c.Passed() == Handed(c.Seen(), c.fn, 0);
  }

  lemma {:induction false} HandedIsAccepted(s: System, events: seq<Event>)
    requires |s.data| > 0 && s.handed == s.accepted
    requires forall i :: 0 <= i < |events| ==> AlwaysContinues(events[i])
    ensures Run(s, events).handed == Run(s, events).accepted
    decreases |events|
  {
    if |events| > 0 {
      var e := events[0];
      assert AlwaysContinues(e);
      if e.Read? && s.scratch.Some? {
        GivenIsPassed(CallOf(s, s.scratch.value, e.fn, e.memory));
      }
      HandedIsAccepted(Step(s, e), events[1..]);
    }
  }

  /** With callbacks that always continue, what is handed over is a prefix of what was produced. */
  lemma HandedIsPrefixOfProduced(data: seq<byte>, events: seq<Event>)
    requires RingSize(|data|)
    requires forall i :: 0 <= i < |events| ==> AlwaysContinues(events[i])
    ensures Run(Init(data), events).handed <= Run(Init(data), events).produced
  {
    AcceptedThenPendingIsProduced(data, events);
    HandedIsAccepted(Init(data), events);
  }
}
