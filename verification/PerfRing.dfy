/**
 The reader of the perf event ring shared with the kernel: records of varying size,
 split where the ring wraps, handed one by one to a callback that may stop the scan.
 */
module PerfRing {
  import opened Bytes

  datatype Ret = Cont | Done | Error

  /** What the callback answers, given all records of this call up to the current one. */
  type Callback = seq<seq<byte>> -> Ret

  const HEADER := 8  // struct perf_event_header: u32 type, u16 misc, u16 size

  // ----- what the ring holds -----

  /** The `n` bytes from position `pos` on, counted round the ring. */
  function Stream(data: seq<byte>, pos: nat, n: nat): (s: seq<byte>)
    requires |data| > 0
    ensures |s| == n
  {
    seq(n, i requires 0 <= i < n => data[(pos + i) % |data|])
  }

  function RecordSize(s: seq<byte>): nat
    requires |s| >= HEADER
  {
    Le16(s[6], s[7])
  }

  /** One record: its header states its length, a multiple of eight as the kernel pads it. */
  predicate IsRecord(r: seq<byte>) {
    |r| >= HEADER && |r| == RecordSize(r) && |r| % 8 == 0
  }

  /** A sequence of whole records. */
  predicate WholeRecords(s: seq<byte>) {
    |s| == 0 ||
    (|s| >= HEADER && HEADER <= RecordSize(s) <= |s| && RecordSize(s) % 8 == 0 && WholeRecords(s[RecordSize(s)..]))
  }

  function Records(s: seq<byte>): seq<seq<byte>>
    requires WholeRecords(s)
  {
    if |s| == 0 then [] else [s[..RecordSize(s)]] + Records(s[RecordSize(s)..])
  }

  function Concat(recs: seq<seq<byte>>): seq<byte> {
    if |recs| == 0 then [] else recs[0] + Concat(recs[1..])
  }

  /** How many records a call hands over: all, or up to the first one the callback stops at. */
  function Handed(recs: seq<seq<byte>>, fn: Callback, k: nat): (h: nat)
    requires k <= |recs|
    ensures k <= h <= |recs|
    decreases |recs| - k
  {
    if k == |recs| then k
    else if fn(recs[..k + 1]) != Cont then k + 1
    else Handed(recs, fn, k + 1)
  }

  /** How many of them it accepts: not the one it stopped at. */
  function Accepted(recs: seq<seq<byte>>, fn: Callback): (a: nat)
    ensures a <= |recs|
  {
    var h := Handed(recs, fn, 0);
    if h > 0 && fn(recs[..h]) != Cont then h - 1 else h
  }

  // ----- records and streams -----

  lemma {:induction false} RecordsAreRecords(s: seq<byte>)
    requires WholeRecords(s)
    ensures forall k :: 0 <= k < |Records(s)| ==> IsRecord(Records(s)[k])
  {
    if |s| > 0 {
      RecordsAreRecords(s[RecordSize(s)..]);
    }
  }

  /** The records of a stream spell the stream. */
  lemma {:induction false} ConcatRecords(s: seq<byte>)
    requires WholeRecords(s)
    ensures Concat(Records(s)) == s
  {
    if |s| > 0 {
      ConcatRecords(s[RecordSize(s)..]);
    }
  }

  /** A stream that begins with a record `n` bytes long. */
  lemma FrontRecord(s: seq<byte>, n: nat, rest: seq<byte>)
    requires HEADER <= n <= |s| && n == RecordSize(s) && n % 8 == 0 && rest == s[n..] && WholeRecords(rest)
    ensures WholeRecords(s) && Records(s) == [s[..n]] + Records(rest)
  {
  }

  lemma FrontOfSum(s: seq<byte>, r: seq<byte>, n: nat)
    requires HEADER <= n <= |s| && n == RecordSize(s)
    ensures RecordSize(s + r) == n && (s + r)[..n] == s[..n] && (s + r)[n..] == s[n..] + r
  {
  }

  lemma LoneRecord(r: seq<byte>)
    requires IsRecord(r)
    ensures WholeRecords(r) && Records(r) == [r]
  {
    assert r[|r|..] == [] && r[..|r|] == r;
    FrontRecord(r, |r|, []);
  }

  lemma SplitsFirst(s: seq<byte>, size: nat)
    requires WholeRecords(s) && |s| > 0 && size == RecordSize(s)
    ensures HEADER <= size <= |s| && size % 8 == 0
    ensures WholeRecords(s[size..]) && Records(s) == [s[..size]] + Records(s[size..])
  {
  }

  lemma Associates(a: seq<seq<byte>>, b: seq<seq<byte>>, c: seq<seq<byte>>)
    ensures a + (b + c) == a + b + c
  {
  }

  /** Appending a record to a stream appends it to its records. */
  lemma {:induction false} RecordsAppend(s: seq<byte>, r: seq<byte>)
    requires WholeRecords(s) && IsRecord(r)
    ensures WholeRecords(s + r) && Records(s + r) == Records(s) + [r]
    decreases |s|
  {
    if |s| == 0 {
      LoneRecord(r);
      assert s + r == r;
    } else {
      var n := RecordSize(s);
      SplitsFirst(s, n);
      RecordsAppend(s[n..], r);
      FrontOfSum(s, r, n);
      FrontRecord(s + r, n, s[n..] + r);
      Associates([s[..n]], Records(s[n..]), [r]);
    }
  }

  /** Dropping the first `k` records of a stream leaves the others. */
  lemma {:induction false} RecordsDrop(s: seq<byte>, k: nat)
    requires WholeRecords(s) && k <= |Records(s)|
    ensures |Concat(Records(s)[..k])| <= |s|
    ensures WholeRecords(s[|Concat(Records(s)[..k])|..])
    ensures Records(s[|Concat(Records(s)[..k])|..]) == Records(s)[k..]
    decreases |s|
  {
    if k > 0 {
      var n, recs := RecordSize(s), Records(s);
      RecordsDrop(s[n..], k - 1);
      assert recs[..k][1..] == recs[1..][..k - 1] && recs[1..] == Records(s[n..]);
      assert Concat(recs[..k]) == recs[0] + Concat(recs[1..][..k - 1]);
      assert s[n..][|Concat(recs[1..][..k - 1])|..] == s[|Concat(recs[..k])|..];
    } else {
      assert s[0..] == s;
    }
  }

  lemma StreamDrop(data: seq<byte>, pos: nat, n: nat, k: nat)
    requires |data| > 0 && k <= n
    ensures Stream(data, pos, n)[k..] == Stream(data, pos + k, n - k)
  {
    forall i | 0 <= i < n - k
      ensures Stream(data, pos, n)[k..][i] == Stream(data, pos + k, n - k)[i]
    {
      assert pos + (k + i) == pos + k + i;
    }
  }

  lemma StreamMod(data: seq<byte>, pos: nat, n: nat)
    requires |data| > 0 && TWO_64 % |data| == 0
    ensures Stream(data, pos % TWO_64, n) == Stream(data, pos, n)
  {
    forall i | 0 <= i < n
      ensures Stream(data, pos % TWO_64, n)[i] == Stream(data, pos, n)[i]
    {
      SlotMod(pos, i, |data|);
    }
  }

  lemma SlotMod(pos: nat, i: nat, m: int)
    requires m > 0 && TWO_64 % m == 0
    ensures (pos % TWO_64 + i) % m == (pos + i) % m
  {
    ModMod(pos, TWO_64, m);
    SameModAdd(pos % TWO_64, pos, i, m);
  }

  lemma SameModAdd(x: nat, y: nat, i: nat, m: int)
    requires m > 0 && x % m == y % m
    ensures (x + i) % m == (y + i) % m
  {
    assert x + i == (x % m + i) + (x / m) * m;
    assert y + i == (x % m + i) + (y / m) * m;
    ModPlusMultiple(x % m + i, x / m, m);
    ModPlusMultiple(x % m + i, y / m, m);
  }

  lemma StreamAt(data: seq<byte>, pos: nat, n: nat, i: nat)
    requires |data| > 0 && i < n
    ensures Stream(data, pos, n)[i] == data[(pos + i) % |data|]
  {
  }

  /** The first `n` bytes from ring offset `b` on. */
  function Pieces(data: seq<byte>, b: nat, n: nat): seq<byte>
    requires b < |data| && n <= |data|
  {
    if b + n <= |data| then data[b..b + n] else data[b..] + data[..n - (|data| - b)]
  }

  lemma PieceAt(data: seq<byte>, b: nat, n: nat, i: nat)
    requires b < |data| && i < n <= |data|
    ensures |Pieces(data, b, n)| == n && Pieces(data, b, n)[i] == data[if b + i < |data| then b + i else b + i - |data|]
  {
  }

  /** The front of a stream, as one or two pieces of the ring. */
  lemma StreamFront(data: seq<byte>, pos: nat, n: nat, k: nat)
    requires |data| > 0 && k <= n && k <= |data|
    ensures Stream(data, pos, n)[..k] == Pieces(data, pos % |data|, k)
  {
    forall i | 0 <= i < k
      ensures Stream(data, pos, n)[..k][i] == Pieces(data, pos % |data|, k)[i]
    {
      StreamAt(data, pos, n, i);
      ModAdvance(pos, i, |data|);
      PieceAt(data, pos % |data|, k, i);
    }
  }

  /** The callback lets `a` records pass and then stops, or there are no more. */
  lemma {:induction false} HandedIs(recs: seq<seq<byte>>, fn: Callback, k: nat, a: nat)
    requires k <= a <= |recs|
    requires forall j :: k < j <= a ==> fn(recs[..j]) == Cont
    ensures a == |recs| ==> Handed(recs, fn, k) == a
    ensures a < |recs| && fn(recs[..a + 1]) != Cont ==> Handed(recs, fn, k) == a + 1
    decreases a - k
  {
    if k < a {
      HandedIs(recs, fn, k + 1, a);
    }
  }

  // ----- the reader -----

  class Ring {
    const data: array<byte>  // the pages behind the header page
    var tail: nat            // data_tail, where the reader stands
    var head: nat            // data_head, where the kernel stands

    constructor (data: array<byte>)
      ensures this.data == data && tail == head == 0
    {
      this.data, tail, head := data, 0, 0;
    }

    /** Distance between the two counters, which wrap at 2^64. */
    function Avail(): nat
      reads this
    {
      (head - tail) % TWO_64
    }

    /**
     The size is a power of two pages and so divides 2^64; the kernel writes whole
     records in steps of eight bytes and never more than fit.
     */
    ghost predicate Valid()
      reads this, data
    {
      data.Length > 0 && data.Length % 8 == 0 && TWO_64 % data.Length == 0 &&
      tail < TWO_64 && head < TWO_64 && tail % 8 == 0 && Avail() <= data.Length &&
      (Avail() < data.Length ==> WholeRecords(Stream(data[..], tail, Avail())))
    }

    ghost function Pending(): seq<seq<byte>>
      requires Valid() && Avail() < data.Length
      reads this, data
    {
      Records(Stream(data[..], tail, Avail()))
    }
  }

  /** The caller's scratch buffer, in which a split record is put together. */
  class Scratch {
    var buf: array?<byte>
    var len: nat

    constructor ()
      ensures buf == null && len == 0
    {
      buf, len := null, 0;
    }

    ghost predicate Valid()
      reads this
    {
      len > 0 ==> buf != null && buf.Length >= len
    }
  }

  method Memcpy(dst: array<byte>, d: nat, src: array<byte>, s: nat, n: nat)
    requires dst != src && d + n <= dst.Length && s + n <= src.Length
    modifies dst
    ensures dst[..] == old(dst[..d]) + src[s..s + n] + old(dst[d + n..])
  {
    for i := 0 to n
      invariant forall j :: 0 <= j < dst.Length ==> dst[j] == if d <= j < d + i then src[s + j - d] else old(dst[j])
    {
      dst[d + i] := src[s + i];
    }
  }

  /** The two copies that put a wrapping record together. */
  method Rejoin(buf: array<byte>, data: array<byte>, begin: nat, size: nat)
    requires buf != data && begin < data.Length < begin + size && size <= data.Length && size <= buf.Length
    modifies buf
    ensures buf[..size] == data[begin..] + data[..size - (data.Length - begin)]
  {
    var len := data.Length - begin;
    Memcpy(buf, 0, data, begin, len);
    assert buf[..len] == data[begin..];
    Memcpy(buf, len, data, 0, size - len);
    assert buf[..size] == buf[..len] + buf[len..size];
  }

  /**
   Put a record that wraps together in the scratch buffer, which grows if it is too short.  If
   there is no memory, the old buffer is gone, but its length stays.
   */
  method Reassemble(ring: Ring, scratch: Scratch, begin: nat, size: nat, memory: bool) returns (ok: bool)
    requires scratch.Valid() && scratch.buf != ring.data
    requires begin < ring.data.Length < begin + size && size <= ring.data.Length
    modifies scratch, scratch.buf
    ensures scratch.buf == old(scratch.buf) || scratch.buf == null || fresh(scratch.buf)
    ensures scratch.buf != ring.data
    ensures ok <==> memory || size <= old(scratch.len)
    ensures ok ==> scratch.Valid() && scratch.buf != null && size <= scratch.buf.Length &&
                   scratch.buf[..size] == ring.data[begin..] + ring.data[..size - (ring.data.Length - begin)]
    ensures ok ==> scratch.len == if size > old(scratch.len) then size else old(scratch.len)
    ensures !ok ==> scratch.buf == null && scratch.len == old(scratch.len)
  {
    if scratch.len < size {
      scratch.buf := null;
      if !memory {
        return false;
      }
      scratch.buf := new byte[size];
      scratch.len := size;
    }
    Rejoin(scratch.buf, ring.data, begin, size);
    return true;
  }

  /** A header is never split, so its size field can be read in place. */
  lemma HeaderInPlace(data: seq<byte>, pos: nat, n: nat)
    requires |data| > 0 && |data| % 8 == 0 && pos % 8 == 0 && HEADER <= n < |data|
    ensures
      var b := pos % |data|;
      b + HEADER <= |data| && RecordSize(Stream(data, pos, n)) == Le16(data[b + 6], data[b + 7])
  {
    AlignedRemainder(pos, |data|);
    ModAdvance(pos, 6, |data|);
    ModAdvance(pos, 7, |data|);
  }

  lemma FirstRecordFits(data: seq<byte>, pos: nat, n: nat)
    requires |data| > 0 && |data| % 8 == 0 && pos % 8 == 0 && 0 < n < |data| && WholeRecords(Stream(data, pos, n))
    ensures
      var b, size := pos % |data|, RecordSize(Stream(data, pos, n));
      b + HEADER <= |data| && HEADER <= size <= n && size % 8 == 0 && size == Le16(data[b + 6], data[b + 7])
  {
    HeaderInPlace(data, pos, n);
  }

  /** The first record of what the ring holds from `pos` on, and the rest. */
  lemma FirstRecord(data: seq<byte>, pos: nat, n: nat, size: nat)
    requires
      |data| > 0 && 0 < n < |data| && WholeRecords(Stream(data, pos, n)) && size == RecordSize(Stream(data, pos, n))
    ensures
      size <= n && WholeRecords(Stream(data, pos + size, n - size)) &&
      Records(Stream(data, pos, n)) == [Pieces(data, pos % |data|, size)] + Records(Stream(data, pos + size, n - size))
  {
    var s := Stream(data, pos, n);
    SplitsFirst(s, size);
    StreamFront(data, pos, n, size);
    StreamDrop(data, pos, n, size);
  }

  /** Two positions less than one turn apart share a slot only if they are equal. */
  lemma SameSlot(x: nat, y: nat, m: int)
    requires m > 0 && x <= y < x + m
    ensures x % m == y % m <==> x == y
  {
    ModAdvance(x, y - x, m);
  }

  /** Record `r` stands at ring offset `b`, header in one piece, and `next` is the offset behind it. */
  predicate Laid(data: seq<byte>, b: nat, r: seq<byte>, next: nat) {
    b + HEADER <= |data| && HEADER <= |r| < |data| &&
    |r| == Le16(data[b + 6], data[b + 7]) && r == Pieces(data, b, |r|) &&
    next == if b + |r| < |data| then b + |r| else b + |r| - |data|
  }

  /** `slots` are the ring offsets of `recs` and of the place behind them, which no record shares. */
  ghost predicate LaidOut(data: seq<byte>, recs: seq<seq<byte>>, slots: seq<nat>) {
    |slots| == |recs| + 1 &&
    forall k :: 0 <= k < |recs| ==> slots[k] != slots[|recs|] && Laid(data, slots[k], recs[k], slots[k + 1])
  }

  lemma LaidBefore(data: seq<byte>, b: nat, r: seq<byte>, recs: seq<seq<byte>>, slots: seq<nat>)
    requires LaidOut(data, recs, slots) && b != slots[|recs|] && Laid(data, b, r, slots[0])
    ensures LaidOut(data, [r] + recs, [b] + slots)
  {
    var all, offs := [r] + recs, [b] + slots;
    forall k | 0 <= k < |all|
      ensures offs[k] != offs[|all|] && Laid(data, offs[k], all[k], offs[k + 1])
    {
      if k > 0 {
        assert all[k] == recs[k - 1] && offs[k] == slots[k - 1] && offs[k + 1] == slots[k];
      }
    }
  }

  /** Where a record of `size` bytes leads, and that the end of the stream is elsewhere. */
  lemma NextPlace(pos: nat, size: nat, n: nat, end: nat, m: nat)
    requires m > 0 && size <= n && 0 < n < m && end == pos + n
    ensures (pos + size) % m == if pos % m + size < m then pos % m + size else pos % m + size - m
    ensures pos % m != end % m
  {
    ModAdvance(pos, size, m);
    SameSlot(pos, end, m);
  }

  /** The first record leads from its offset to the offset of the rest, and not to the end. */
  lemma FirstLaid(data: seq<byte>, pos: nat, n: nat, end: nat) returns (b: nat, r: seq<byte>, next: nat)
    requires |data| > 0 && |data| % 8 == 0 && pos % 8 == 0 && 0 < n < |data| && WholeRecords(Stream(data, pos, n))
    requires end == pos + n
    ensures b == pos % |data| && b != end % |data| && HEADER <= |r| <= n && next == pos + |r| && next % 8 == 0
    ensures Laid(data, b, r, next % |data|)
    ensures WholeRecords(Stream(data, next, n - |r|))
    ensures Records(Stream(data, pos, n)) == [r] + Records(Stream(data, next, n - |r|))
  {
    var size := RecordSize(Stream(data, pos, n));
    FirstRecordFits(data, pos, n);
    FirstRecord(data, pos, n, size);
    b := pos % |data|;
    r := Pieces(data, b, size);
    next := pos + size;
    assert |r| == size;
    AlignedSum(pos, size);
    NextPlace(pos, size, n, end, |data|);
  }

  /** The whole layout of what the ring holds. */
  lemma {:induction false} Layout(data: seq<byte>, pos: nat, n: nat, end: nat)
    returns (recs: seq<seq<byte>>, slots: seq<nat>)
    requires |data| > 0 && |data| % 8 == 0 && pos % 8 == 0 && n < |data| && WholeRecords(Stream(data, pos, n))
    requires end == pos + n
    ensures recs == Records(Stream(data, pos, n)) && LaidOut(data, recs, slots)
    ensures slots[0] == pos % |data| && slots[|recs|] == end % |data|
    decreases n
  {
    if n == 0 {
      recs, slots := [], [pos % |data|];
    } else {
      var b, r, next := FirstLaid(data, pos, n, end);
      var rest, offs := Layout(data, next, n - |r|, end);
      LaidBefore(data, b, r, rest, offs);
      recs, slots := [r] + rest, [b] + offs;
    }
  }

  lemma AlignedSum(x: nat, y: nat)
    requires x % 8 == 0 && y % 8 == 0
    ensures (x + y) % 8 == 0
  {
  }

  lemma AlignedRemainder(x: nat, m: int)
    requires x % 8 == 0 && m > 0 && m % 8 == 0
    ensures (x % m) % 8 == 0 && x % m + 8 <= m
  {
    ModMod(x, m, 8);
    WholeStepsBelow(x % m, m);
  }

  lemma WholeStepsBelow(x: nat, m: nat)
    requires x < m && x % 8 == 0 && m % 8 == 0
    ensures x + 8 <= m
  {
  }

  lemma {:induction false} ConcatOneMore(recs: seq<seq<byte>>, k: nat)
    requires k < |recs|
    ensures |Concat(recs[..k + 1])| == |Concat(recs[..k])| + |recs[k]|
  {
    if k > 0 {
      ConcatOneMore(recs[1..], k - 1);
      assert recs[..k + 1][1..] == recs[1..][..k] && recs[..k][1..] == recs[1..][..k - 1];
    } else {
      assert recs[..1][1..] == [] && recs[..0] == [];
    }
  }

  lemma HeadIsTailPlus(tail: nat, head: nat)
    requires tail < TWO_64 && head < TWO_64
    ensures head == (tail + (head - tail) % TWO_64) % TWO_64
  {
  }

  /** What the loop of the reader will meet; nothing at all when the ring is completely full. */
  lemma LayoutOf(ring: Ring, begin: nat, end: nat) returns (recs: seq<seq<byte>>, slots: seq<nat>)
    requires ring.Valid() && begin == ring.tail % ring.data.Length && end == ring.head % ring.data.Length
    ensures LaidOut(ring.data[..], recs, slots) && slots[0] == begin && slots[|recs|] == end
    ensures ring.Avail() < ring.data.Length ==> recs == ring.Pending()
    ensures ring.Avail() == ring.data.Length ==> recs == []
    ensures 0 < ring.Avail() < ring.data.Length ==> recs != []
  {
    var size, avail := ring.data.Length, ring.Avail();
    HeadIsTailPlus(ring.tail, ring.head);
    ModMod(ring.tail + avail, TWO_64, size);
    if avail == size {
      ModAdvance(ring.tail, avail, size);
      recs, slots := [], [begin];
    } else {
      recs, slots := Layout(ring.data[..], ring.tail, avail, ring.tail + avail);
    }
  }

  /** The counter behind the first `k` records. */
  function TailAfter(first: nat, recs: seq<seq<byte>>, k: nat): nat
    requires k <= |recs|
  {
    (first + |Concat(recs[..k])|) % TWO_64
  }

  lemma TailAtStart(first: nat, recs: seq<seq<byte>>)
    requires first < TWO_64
    ensures TailAfter(first, recs, 0) == first
  {
  }

  lemma AdvanceTail(first: nat, recs: seq<seq<byte>>, k: nat)
    requires k < |recs|
    ensures (TailAfter(first, recs, k) + |recs[k]|) % TWO_64 == TailAfter(first, recs, k + 1)
  {
    ConcatOneMore(recs, k);
    var x := first + |Concat(recs[..k])|;
    ModMod(x, TWO_64, TWO_64);
    SameModAdd(x % TWO_64, x, |recs[k]|, TWO_64);
  }

  // ----- the record that wraps -----

  /** The bytes in front of record `k`. */
  function Before(recs: seq<seq<byte>>, k: nat): nat
    requires k <= |recs|
  {
    |Concat(recs[..k])|
  }

  /** Record `k`, read from ring offset `first` on, starts in front of the end of the ring and ends behind it. */
  predicate Wraps(size: nat, first: nat, recs: seq<seq<byte>>, k: nat)
    requires k < |recs|
  {
    first + Before(recs, k) < size < first + Before(recs, k + 1)
  }

  /** Record `k` needs a longer scratch buffer. */
  predicate Outgrows(size: nat, first: nat, recs: seq<seq<byte>>, len: nat, k: nat)
    requires k < |recs|
  {
    Wraps(size, first, recs, k) && |recs[k]| > len
  }

  /** The first such record from `k` on, or |recs|. */
  function Outgrowing(size: nat, first: nat, recs: seq<seq<byte>>, len: nat, k: nat): (g: nat)
    requires k <= |recs|
    ensures k <= g <= |recs|
    ensures g < |recs| ==> Outgrows(size, first, recs, len, g)
    ensures forall i :: k <= i < g ==> !Outgrows(size, first, recs, len, i)
    decreases |recs| - k
  {
    if k == |recs| || Outgrows(size, first, recs, len, k) then k
    else Outgrowing(size, first, recs, len, k + 1)
  }

  /** What a call with a scratch buffer of `len` bytes has to do with. */
  datatype Call = Call(size: nat, first: nat, recs: seq<seq<byte>>, len: nat, memory: bool, fn: Callback) {

    function Stuck(): (g: nat)
      ensures g <= |recs|
    {
      Outgrowing(size, first, recs, len, 0)
    }

    /** The records that can be handed over: without memory, those before the one that needs more of it. */
    function Seen(): (seen: seq<seq<byte>>)
      ensures seen <= recs
    {
      if memory then recs else recs[..Stuck()]
    }

    /** The loop gets as far as the record that needs more memory. */
    predicate Reached() {
      Stuck() < |recs| && Accepted(recs[..Stuck()], fn) == Stuck()
    }

    predicate Refused() {
      !memory && Reached()
    }

    function Answer(): Ret {
      if recs == [] || Refused() then Error else fn(Given())
    }

    function Given(): seq<seq<byte>> {
      Seen()[..Handed(Seen(), fn, 0)]
    }

    function Passed(): (a: nat)
      ensures a <= |recs|
    {
      Accepted(Seen(), fn)
    }

    function LenAfter(): nat {
      if memory && Reached() then |recs[Stuck()]| else len
    }
  }

  lemma {:induction false} BeforeAtMost(recs: seq<seq<byte>>, k: nat)
    requires k <= |recs|
    ensures Before(recs, k) <= |Concat(recs)|
  {
    if k > 0 {
      BeforeAtMost(recs[1..], k - 1);
      assert recs[..k][1..] == recs[1..][..k - 1];
    }
  }

  lemma {:induction false} BeforeGrows(recs: seq<seq<byte>>, j: nat, k: nat)
    requires j <= k <= |recs|
    ensures Before(recs, j) <= Before(recs, k)
    decreases k - j
  {
    if j < k {
      ConcatOneMore(recs, j);
      BeforeGrows(recs, j + 1, k);
    }
  }

  /** At most one record wraps. */
  lemma WrapsOnce(size: nat, first: nat, recs: seq<seq<byte>>, j: nat, k: nat)
    requires j < k < |recs| && Wraps(size, first, recs, j)
    ensures !Wraps(size, first, recs, k)
  {
    BeforeGrows(recs, j + 1, k);
  }

  /** The offset behind `n` bytes read from offset `first` on. */
  function Place(size: nat, first: nat, n: nat): int {
    if first + n < size then first + n else first + n - size
  }

  /** The test of the source, at the offset of record `k`, asks whether it wraps. */
  lemma WrapTest(size: nat, first: nat, recs: seq<seq<byte>>, k: nat, at: nat)
    requires k < |recs| && first < size && |Concat(recs)| < size && at == Place(size, first, Before(recs, k))
    ensures at + |recs[k]| > size <==> Wraps(size, first, recs, k)
    ensures
      Place(size, first, Before(recs, k + 1)) == if at + |recs[k]| < size then at + |recs[k]| else at + |recs[k]| - size
  {
    ConcatOneMore(recs, k);
    BeforeAtMost(recs, k + 1);
  }

  /** A loop that lets `a` records pass and then is stopped by the callback, or has no more. */
  lemma PassedIs(seen: seq<seq<byte>>, fn: Callback, a: nat)
    requires a <= |seen| && forall j :: 0 < j <= a ==> fn(seen[..j]) == Cont
    requires a < |seen| ==> fn(seen[..a + 1]) != Cont
    ensures Accepted(seen, fn) == a && Handed(seen, fn, 0) == if a < |seen| then a + 1 else a
  {
    HandedIs(seen, fn, 0, a);
  }

  /** Among the records in front of the one that needs memory, the callback stops at the same one, or at none. */
  lemma {:induction false} HandedBefore(recs: seq<seq<byte>>, fn: Callback, k: nat, g: nat)
    requires k <= g <= |recs|
    ensures Handed(recs[..g], fn, k) == if Handed(recs, fn, k) <= g then Handed(recs, fn, k) else g
    decreases g - k
  {
    if k < g {
      assert recs[..g][..k + 1] == recs[..k + 1];
      HandedBefore(recs, fn, k + 1, g);
    }
  }

  /** The record is reached exactly if the callback lets all records in front of it pass. */
  lemma {:induction false} PassAll(recs: seq<seq<byte>>, fn: Callback, k: nat, g: nat)
    requires k <= g <= |recs|
    ensures (Handed(recs[..g], fn, k) == g && (k < g ==> fn(recs[..g]) == Cont)) <==>
            forall j :: k < j <= g ==> fn(recs[..j]) == Cont
    decreases g - k
  {
    if k < g {
      assert recs[..g][..k + 1] == recs[..k + 1];
      PassAll(recs, fn, k + 1, g);
    }
  }

  /**
   Memory is refused exactly if there is none and some record both wraps and is longer than the
   scratch buffer, all callbacks before it having asked for more.
   */
  lemma RefusedIff(c: Call)
    ensures c.Refused() <==>
            !c.memory && exists k :: 0 <= k < |c.recs| && Wraps(c.size, c.first, c.recs, k) &&
                                     |c.recs[k]| > c.len && forall j :: 0 < j <= k ==> c.fn(c.recs[..j]) == Cont
  {
    var g := c.Stuck();
    assert c.recs[..g][..g] == c.recs[..g];
    PassAll(c.recs, c.fn, 0, g);
    if !c.memory && exists k :: 0 <= k < |c.recs| && Wraps(c.size, c.first, c.recs, k) &&
                                |c.recs[k]| > c.len && forall j :: 0 < j <= k ==> c.fn(c.recs[..j]) == Cont {
      var k :| 0 <= k < |c.recs| && Wraps(c.size, c.first, c.recs, k) && |c.recs[k]| > c.len &&
               forall j :: 0 < j <= k ==> c.fn(c.recs[..j]) == Cont;
      assert Outgrows(c.size, c.first, c.recs, c.len, k);
      assert g <= k;
    }
  }

  // ----- the loop -----

  /** One turn of the reader: take the record at `begin` and move behind it. */
  method TakeRecord(ring: Ring, scratch: Scratch, begin: nat, memory: bool, ghost r: seq<byte>, ghost behind: nat)
    returns (ok: bool, event: seq<byte>, next: nat)
    requires Laid(ring.data[..], begin, r, behind) && scratch.Valid() && scratch.buf != ring.data
    modifies scratch, scratch.buf
    ensures scratch.buf == old(scratch.buf) || scratch.buf == null || fresh(scratch.buf)
    ensures scratch.buf != ring.data
    ensures
      var grows := begin + |r| > ring.data.Length && |r| > old(scratch.len);
      ok == (memory || !grows) && scratch.len == if grows && memory then |r| else old(scratch.len)
    ensures ok ==> scratch.Valid() && event == r && next == behind
    ensures !ok ==> scratch.buf == null
  {
    ghost var data := ring.data[..];
    var size := Le16(ring.data[begin + 6], ring.data[begin + 7]);
    if begin + size > ring.data.Length {
      ok := Reassemble(ring, scratch, begin, size, memory);
      if !ok {
        return false, [], begin;
      }
      assert ring.data[..] == data;
      event := scratch.buf[..size];
      next := size - (ring.data.Length - begin);
    } else if begin + size == ring.data.Length {
      event := ring.data[begin..begin + size];
      next := 0;
    } else {
      event := ring.data[begin..begin + size];
      next := begin + size;
    }
    ok := true;
  }

  /** What the loop of a call ends in. */
  ghost predicate IsScan(c: Call, first: nat, ret: Ret, handed: seq<seq<byte>>, tail: nat, len: nat) {
    ret == c.Answer() && handed == c.Given() && tail == TailAfter(first, c.recs, c.Passed()) && len == c.LenAfter()
  }

  /** The length of the scratch buffer after `k` records. */
  ghost function LenAt(c: Call, k: nat): nat {
    if c.Stuck() < k && c.Stuck() < |c.recs| then |c.recs[c.Stuck()]| else c.len
  }

  /** One more record, and whether it makes the scratch buffer grow. */
  lemma GrowsAt(c: Call, k: nat)
    requires k < |c.recs|
    ensures Wraps(c.size, c.first, c.recs, k) && |c.recs[k]| > LenAt(c, k) <==> k == c.Stuck()
    ensures LenAt(c, k + 1) == if k == c.Stuck() then |c.recs[k]| else LenAt(c, k)
  {
    var g := c.Stuck();
    if g < k {
      WrapsOnce(c.size, c.first, c.recs, g, k);
    } else {
      assert Outgrows(c.size, c.first, c.recs, c.len, k) <==> k == g;
    }
  }

  /** All `k` records were let pass, and no more are to be had. */
  lemma EndsAt(c: Call, first: nat, k: nat, ret: Ret)
    requires k == |c.Seen()| && forall j :: 0 < j <= k ==> c.fn(c.Seen()[..j]) == Cont
    requires ret == if k < |c.recs| || k == 0 then Error else Cont
    ensures IsScan(c, first, ret, c.recs[..k], TailAfter(first, c.recs, k), if k < |c.recs| then c.len else LenAt(c, k))
  {
    PassedIs(c.Seen(), c.fn, k);
    var g := c.Stuck();
    if k == |c.recs| {
      assert c.Seen() == c.recs && c.recs[..k] == c.recs;
      PassAll(c.recs, c.fn, 0, g);
      assert c.recs[..g][..g] == c.recs[..g];
    }
  }

  /** The callback stopped at record `k`. */
  lemma StopsAt(c: Call, first: nat, k: nat)
    requires
      k < |c.Seen()| && (forall j :: 0 < j <= k ==> c.fn(c.Seen()[..j]) == Cont) && c.fn(c.Seen()[..k + 1]) != Cont
    ensures IsScan(c, first, c.fn(c.Seen()[..k + 1]), c.Seen()[..k + 1], TailAfter(first, c.recs, k), LenAt(c, k + 1))
    ensures !c.Refused()
  {
    PassedIs(c.Seen(), c.fn, k);
    var g := c.Stuck();
    assert c.recs[..g][..g] == c.recs[..g];
    PassAll(c.recs, c.fn, 0, g);
    assert c.Seen()[..k + 1] == c.recs[..k + 1];
  }

  /** The loop after `k` records, all let pass. */
  ghost predicate Underway(c: Call, first: nat, k: nat, at: nat, ret: Ret, handed: seq<seq<byte>>, tail: nat, len: nat)
  {
    k <= |c.Seen()| && at == Place(c.size, c.first, Before(c.recs, k)) &&
    tail == TailAfter(first, c.recs, k) && len == LenAt(c, k) && handed == c.recs[..k] &&
    (forall j :: 0 < j <= k ==> c.fn(c.Seen()[..j]) == Cont) && ret == if k == 0 then Error else Cont
  }

  /** What a turn does: where it goes, and whether it needs memory. */
  lemma TurnsTo(c: Call, first: nat, k: nat, at: nat, ret: Ret, handed: seq<seq<byte>>, tail: nat, len: nat)
    requires Underway(c, first, k, at, ret, handed, tail, len) && k < |c.recs|
    requires c.first < c.size && |Concat(c.recs)| < c.size
    ensures at + |c.recs[k]| > c.size && |c.recs[k]| > len <==> k == c.Stuck()
    ensures k == |c.Seen()| ==> !c.memory && k == c.Stuck()
    ensures LenAt(c, k + 1) == if k == c.Stuck() then |c.recs[k]| else len
    ensures handed + [c.recs[k]] == c.recs[..k + 1]
    ensures k < |c.Seen()| ==> c.Seen()[..k + 1] == c.recs[..k + 1]
  {
    WrapTest(c.size, c.first, c.recs, k, at);
    GrowsAt(c, k);
  }

  /** A turn whose callback asks for more. */
  lemma TurnGoesOn(c: Call, first: nat, k: nat, at: nat, ret: Ret, handed: seq<seq<byte>>, tail: nat, len: nat,
                   at': nat, tail': nat, len': nat)
    requires Underway(c, first, k, at, ret, handed, tail, len) && k < |c.Seen()|
    requires c.first < c.size && |Concat(c.recs)| < c.size && len' == LenAt(c, k + 1)
    requires at' == if at + |c.recs[k]| < c.size then at + |c.recs[k]| else at + |c.recs[k]| - c.size
    requires tail' == (tail + |c.recs[k]|) % TWO_64 && c.fn(c.Seen()[..k + 1]) == Cont
    ensures Underway(c, first, k + 1, at', Cont, c.recs[..k + 1], tail', len')
  {
    WrapTest(c.size, c.first, c.recs, k, at);
    AdvanceTail(first, c.recs, k);
  }

  /** The loop's sequences: records in place, and a call with the current scratch buffer. */
  ghost predicate Prepared(ring: Ring, scratch: Scratch, c: Call, slots: seq<nat>)
    reads ring, ring.data, scratch
  {
    LaidOut(ring.data[..], c.recs, slots) && c.size == ring.data.Length && c.first < c.size &&
    |Concat(c.recs)| < c.size && scratch.Valid() && scratch.buf != ring.data
  }

  /** The callback is given the record, and the tail moves behind it if it asks for more. */
  method Deliver(fn: Callback, event: seq<byte>, next: nat, handed: seq<seq<byte>>, tail: nat,
                 ghost c: Call, ghost first: nat, ghost k: nat, ghost at: nat, ghost ret: Ret, ghost len: nat,
                 ghost len': nat)
    returns (on: bool, ret': Ret, handed': seq<seq<byte>>, tail': nat)
    requires Underway(c, first, k, at, ret, handed, tail, len) && c.first < c.size && |Concat(c.recs)| < c.size
    requires c.fn == fn && k < |c.Seen()| && event == c.recs[k] && len' == LenAt(c, k + 1)
    requires next == if at + |event| < c.size then at + |event| else at + |event| - c.size
    ensures on ==> Underway(c, first, k + 1, next, ret', handed', tail', len')
    ensures !on ==> IsScan(c, first, ret', handed', tail', len') && !c.Refused()
  {
    TurnsTo(c, first, k, at, ret, handed, tail, len);
    handed' := handed + [event];
    ret' := fn(handed');
    if ret' != Cont {
      StopsAt(c, first, k);
      return false, ret', handed', tail;
    }
    tail' := (tail + |event|) % TWO_64;
    TurnGoesOn(c, first, k, at, ret, handed, tail, len, next, tail', len');
    on := true;
  }

  /** One turn of the loop; `on` says that it goes on. */
  method Turn(ring: Ring, scratch: Scratch, fn: Callback, memory: bool, at: nat, ret: Ret, handed: seq<seq<byte>>,
              tail: nat, ghost first: nat, ghost c: Call, ghost slots: seq<nat>, ghost k: nat)
    returns (on: bool, at': nat, ret': Ret, handed': seq<seq<byte>>, tail': nat)
    requires Prepared(ring, scratch, c, slots) && c.memory == memory && c.fn == fn
    requires k < |c.recs| && at == slots[k] && Underway(c, first, k, at, ret, handed, tail, scratch.len)
    modifies scratch, scratch.buf
    ensures scratch.buf != ring.data && (scratch.buf == old(scratch.buf) || scratch.buf == null || fresh(scratch.buf))
    ensures
      on ==> scratch.Valid() && at' == slots[k + 1] && Underway(c, first, k + 1, at', ret', handed', tail', scratch.len)
    ensures !on ==> IsScan(c, first, ret', handed', tail', scratch.len)
    ensures !on ==> if c.Refused() then scratch.buf == null else scratch.Valid()
  {
    ghost var len := scratch.len;
    TurnsTo(c, first, k, at, ret, handed, tail, len);
    assert Laid(ring.data[..], slots[k], c.recs[k], slots[k + 1]);
    var ok, event, next := TakeRecord(ring, scratch, at, memory, c.recs[k], slots[k + 1]);
    if !ok {
      EndsAt(c, first, k, Error);
      return false, at, Error, handed, tail;
    }
    at' := next;
    on, ret', handed', tail' := Deliver(fn, event, next, handed, tail, c, first, k, at, ret, len, scratch.len);
  }

  /** The loop of bpf_perf_event_read_simple: from offset `begin` to offset `end`. */
  method Scan(ring: Ring, scratch: Scratch, fn: Callback, memory: bool, begin: nat, end: nat, data_tail: nat,
              ghost c: Call, ghost slots: seq<nat>)
    returns (ret: Ret, handed: seq<seq<byte>>, tail: nat)
    requires Prepared(ring, scratch, c, slots) && data_tail < TWO_64
    requires c == Call(ring.data.Length, begin, c.recs, scratch.len, memory, fn)
    requires slots[0] == begin && slots[|c.recs|] == end
    modifies scratch, scratch.buf
    ensures IsScan(c, data_tail, ret, handed, tail, scratch.len)
    ensures if c.Refused() then scratch.buf == null else scratch.Valid()
  {
    ret, handed, tail := Error, [], data_tail;
    var at, on := begin, true;
    ghost var k := 0;
    TailAtStart(data_tail, c.recs);
    while at != end
      invariant Prepared(ring, scratch, c, slots)
      invariant scratch.buf == old(scratch.buf) || scratch.buf == null || fresh(scratch.buf)
      invariant Underway(c, data_tail, k, at, ret, handed, tail, scratch.len) && at == slots[k]
      decreases |c.recs| - k
    {
      on, at, ret, handed, tail := Turn(ring, scratch, fn, memory, at, ret, handed, tail, data_tail, c, slots, k);
      if !on {
        return;
      }
      k := k + 1;
    }
    EndsAt(c, data_tail, k, ret);
  }

  /** What a call meets: nothing in a ring that is completely full. */
  ghost function CallOf(ring: Ring, scratch: Scratch, fn: Callback, memory: bool): Call
    requires ring.Valid()
    reads ring, ring.data, scratch
  {
    var recs := if ring.Avail() < ring.data.Length then ring.Pending() else [];
    Call(ring.data.Length, ring.tail % ring.data.Length, recs, scratch.len, memory, fn)
  }

  lemma NothingRefused(c: Call)
    requires c.recs == []
    ensures !c.Refused()
  {
  }

  /** What the loop needs, and that there is something pending unless the ring is full. */
  lemma Prepares(ring: Ring, scratch: Scratch, c: Call) returns (slots: seq<nat>)
    requires ring.Valid() && scratch.Valid() && scratch.buf != ring.data && ring.Avail() > 0
    requires c == CallOf(ring, scratch, c.fn, c.memory)
    ensures Prepared(ring, scratch, c, slots)
    ensures slots[0] == ring.tail % ring.data.Length && slots[|c.recs|] == ring.head % ring.data.Length
    ensures ring.Avail() < ring.data.Length ==> c.recs != []
  {
    var recs;
    recs, slots := LayoutOf(ring, ring.tail % ring.data.Length, ring.head % ring.data.Length);
    if ring.Avail() < ring.data.Length {
      ConcatRecords(Stream(ring.data[..], ring.tail, ring.Avail()));
    }
  }

  /** The call on a ring whose counters differ. */
  method ReadPending(ring: Ring, scratch: Scratch, fn: Callback, memory: bool)
    returns (ret: Ret, handed: seq<seq<byte>>, tail: nat)
    requires ring.Valid() && scratch.Valid() && scratch.buf != ring.data && ring.Avail() > 0
    modifies scratch, scratch.buf
    ensures IsScan(old(CallOf(ring, scratch, fn, memory)), ring.tail, ret, handed, tail, scratch.len)
    ensures if old(CallOf(ring, scratch, fn, memory)).Refused() then scratch.buf == null else scratch.Valid()
    ensures old(ring.Avail()) < ring.data.Length ==> old(ring.Pending()) != []
  {
    ghost var c := CallOf(ring, scratch, fn, memory);
    ghost var slots := Prepares(ring, scratch, c);
    var begin, end := ring.tail % ring.data.Length, ring.head % ring.data.Length;
    ret, handed, tail := Scan(ring, scratch, fn, memory, begin, end, ring.tail, c, slots);
  }

  lemma EmptyIff(ring: Ring)
    requires ring.tail < TWO_64 && ring.head < TWO_64
    ensures ring.Avail() == 0 <==> ring.head == ring.tail
  {
  }

  /** bpf_perf_event_read_simple; `memory` says whether the scratch buffer can grow. */
  method ReadSimple(ring: Ring, scratch: Scratch, fn: Callback, memory: bool) returns (ret: Ret, handed: seq<seq<byte>>)
    requires ring.Valid() && scratch.Valid() && scratch.buf != ring.data
    modifies ring`tail, scratch, scratch.buf
    ensures
      old(ring.Avail()) == 0 ==>
        ret == Cont && handed == [] && ring.tail == old(ring.tail) && scratch.len == old(scratch.len)
    ensures old(0 < ring.Avail() < ring.data.Length) ==> old(ring.Pending()) != []
    ensures old(ring.Avail()) > 0 ==>
      IsScan(old(CallOf(ring, scratch, fn, memory)), old(ring.tail), ret, handed, ring.tail, scratch.len)
    ensures scratch.Valid() <==> !old(CallOf(ring, scratch, fn, memory)).Refused() || old(scratch.len) == 0
    ensures old(CallOf(ring, scratch, fn, memory)).Refused() ==> scratch.buf == null
  {
    EmptyIff(ring);
    ghost var c := CallOf(ring, scratch, fn, memory);
    if ring.head == ring.tail {
      NothingRefused(c);
      return Cont, [];
    }
    var tail;
    ret, handed, tail := ReadPending(ring, scratch, fn, memory);
    ring.tail := tail;
  }

  lemma GivenNothingIff(c: Call)
    ensures c.Given() == [] <==> c.recs == [] || (!c.memory && c.Stuck() == 0)
  {
    assert c.Seen() != [] ==> Handed(c.Seen(), c.fn, 0) > 0;
  }

  /**
   For rings of every size: a call on a ring whose counters differ hands over nothing exactly if
   the ring is completely full or the first record needs memory that is not there; a full ring is
   answered with an error.
   */
  lemma NothingGivenIff(ring: Ring, scratch: Scratch, fn: Callback, memory: bool)
    requires ring.Valid() && scratch.Valid() && scratch.buf != ring.data && ring.Avail() > 0
    ensures
      var c := CallOf(ring, scratch, fn, memory);
      c.Given() == [] <==> ring.Avail() == ring.data.Length || (!memory && c.Stuck() == 0)
    ensures ring.Avail() == ring.data.Length ==> CallOf(ring, scratch, fn, memory).Answer() == Error
  {
    var c := CallOf(ring, scratch, fn, memory);
    var _ := Prepares(ring, scratch, c);
    GivenNothingIff(c);
  }

  /** Zeros, but for the size field of a record of 24 bytes at offset 16 of a ring of 32. */
  function SplitRecord(i: int): byte {
    if i == 22 then 24 else 0
  }

  lemma SplitRecordIsPending(data: seq<byte>)
    requires |data| == 32 && forall i :: 0 <= i < 32 ==> data[i] == SplitRecord(i)
    ensures var s := Stream(data, 16, 24); WholeRecords(s) && Records(s) == [s]
  {
    var s := Stream(data, 16, 24);
    assert s[6] == data[22] && s[7] == data[23];
    assert RecordSize(s) == 24 && s[24..] == [] && s[..24] == s;
    assert WholeRecords(s[24..]) && Records(s[24..]) == [];
  }

  lemma SplitRecordNeedsMemory(r: seq<byte>, fn: Callback)
    requires |r| == 24
    ensures Call(32, 16, [r], 8, false, fn).Refused()
  {
    assert [r][..0] == [] && [r][..1] == [r] && Concat([r]) == r + [] == r;
    assert Outgrows(32, 16, [r], 8, 0);
    RefusedIff(Call(32, 16, [r], 8, false, fn));
  }

  /**
   A record that wraps and is longer than the scratch buffer, and no memory: the call answers with
   an error and leaves a length without a buffer.
   */
  method RefusedMemoryBreaksScratch(fn: Callback) returns (scratch: Scratch, ret: Ret)
    ensures ret == Error && !scratch.Valid() && scratch.buf == null && scratch.len == 8
  {
    var data := new byte[32](SplitRecord);
    var ring := new Ring(data);
    ring.tail, ring.head := 16, 40;
    scratch := new Scratch();
    scratch.buf, scratch.len := new byte[8](_ => 0), 8;
    SplitRecordIsPending(data[..]);
    SplitRecordNeedsMemory(Stream(data[..], 16, 24), fn);
    var handed;
    ret, handed := ReadSimple(ring, scratch, fn, false);
  }

  /** One record fills the whole ring: it is not handed over, and the answer is an error. */
  method FullRingLooksEmpty(fn: Callback) returns (ring: Ring, ret: Ret, handed: seq<seq<byte>>)
    ensures ring.data.Length == 8 && ring.tail == 0 && ring.head == 8
    ensures var s := Stream(ring.data[..], 0, 8); WholeRecords(s) && Records(s) == [s]
    ensures handed == [] && ret == Error
  {
    var data := new byte[8](i => if i == 6 then 8 else 0);
    ring := new Ring(data);
    ring.head := 8;
    var scratch := new Scratch();
    ghost var s := Stream(data[..], 0, 8);
    assert s[6] == 8 && s[7] == 0 && s[8..] == [] && s[..8] == s;
    assert WholeRecords(s[8..]) && Records(s[8..]) == [];
    ret, handed := ReadSimple(ring, scratch, fn, true);
  }
}
