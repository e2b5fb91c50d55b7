/** Tags split the traffic of their tag-0 entry: together they never show more than it does. */
module NetdTags {
  import opened Bytes
  import opened NetdUpdate
  import opened MapSums
  import opened NetdAccounting
  import opened NetdConservation

  type Stats = map<StatsKey, Value>

  /** The part of an entry that is tagged traffic of the tag-0 key `k0`. */
  function TaggedPart(k0: StatsKey, f: Field, k: StatsKey, v: Value): nat {
    if k.tag != 0 && k.(tag := 0) == k0 then v.Get(f) else 0
  }

  ghost function Tagged(k0: StatsKey, f: Field): (StatsKey, Value) -> nat {
    (k: StatsKey, v: Value) => TaggedPart(k0, f, k, v)
  }

  function ZeroTotal(m: Stats, k0: StatsKey, f: Field): nat {
    Base(Lookup(m, k0)).Get(f)
  }

  /** All tags of `k0` together show no more than `k0` itself. */
  ghost predicate TagBound(m: Stats, k0: StatsKey, f: Field) {
    Sum(m, Tagged(k0, f)) <= ZeroTotal(m, k0, f)
  }

  ghost predicate TagsBounded(m: Stats) {
    forall k0: StatsKey, f :: k0.tag == 0 ==> TagBound(m, k0, f)
  }

  /** The tag-0 entry does not wrap around when the packet is added. */
  ghost predicate NoWrap(m: Stats, k0: StatsKey, d: Direction, len: nat) {
    forall f :: ZeroTotal(m, k0, f) + Part(d, len, f) < TWO_64
  }

  /** A charge on the selected map: under its tag, then under tag 0. */
  function Charged(m: Stats, cap: nat, key: StatsKey, d: Direction, len: nat): Stats {
    Store(WithTag(m, cap, key, d, len), cap, key.(tag := 0), d, len)
  }

  function WithTag(m: Stats, cap: nat, key: StatsKey, d: Direction, len: nat): Stats {
    if key.tag != 0 then Store(m, cap, key, d, len) else m
  }

  lemma StoredAtMost(v: Value, d: Direction, len: nat, f: Field)
    ensures v.AddPacket(d).AddLength(d, len).Get(f) <= v.Get(f) + Part(d, len, f)
    ensures v.Get(f) + Part(d, len, f) < TWO_64 ==>
      v.AddPacket(d).AddLength(d, len).Get(f) == v.Get(f) + Part(d, len, f)
  {
  }

  lemma TaggedSum(m: Stats, k: StatsKey, v: Value, k0: StatsKey, f: Field)
    ensures Sum(m[k := v], Tagged(k0, f)) + TaggedPart(k0, f, k, Base(Lookup(m, k)))
         == Sum(m, Tagged(k0, f)) + TaggedPart(k0, f, k, v)
  {
    SumStore(m, Tagged(k0, f), k, v);
  }

  /** The write under the tag: the tags grow by the packet at most, and only those of its own tag-0 key. */
  lemma WithTagGrows(m: Stats, cap: nat, key: StatsKey, d: Direction, len: nat, k0: StatsKey, f: Field)
    requires k0.tag == 0
    ensures Sum(WithTag(m, cap, key, d, len), Tagged(k0, f))
         <= Sum(m, Tagged(k0, f)) + if key.(tag := 0) == k0 then Part(d, len, f) else 0
    ensures ZeroTotal(WithTag(m, cap, key, d, len), k0, f) == ZeroTotal(m, k0, f)
  {
    if key.tag != 0 && Lands(m, cap, key) {
      var v := Base(Lookup(m, key));
      TaggedSum(m, key, v.AddPacket(d).AddLength(d, len), k0, f);
      StoredAtMost(v, d, len, f);
    }
  }

  /** The write under tag 0: no tag grows, and the tag-0 entry grows by exactly the packet. */
  lemma ZeroGrows(m: Stats, cap: nat, k: StatsKey, d: Direction, len: nat, k0: StatsKey, f: Field)
    requires k.tag == 0 && k0.tag == 0 && Lands(m, cap, k) && ZeroTotal(m, k, f) + Part(d, len, f) < TWO_64
    ensures Sum(Store(m, cap, k, d, len), Tagged(k0, f)) == Sum(m, Tagged(k0, f))
    ensures ZeroTotal(Store(m, cap, k, d, len), k0, f) == ZeroTotal(m, k0, f) + if k == k0 then Part(d, len, f) else 0
  {
    var v := Base(Lookup(m, k));
    TaggedSum(m, k, v.AddPacket(d).AddLength(d, len), k0, f);
    StoredAtMost(v, d, len, f);
  }

  lemma ChargeKeepsBound(m: Stats, cap: nat, key: StatsKey, d: Direction, len: nat)
    requires TagsBounded(m) && NoWrap(m, key.(tag := 0), d, len)
    requires Lands(WithTag(m, cap, key, d, len), cap, key.(tag := 0))
    ensures TagsBounded(Charged(m, cap, key, d, len))
  {
    forall k0: StatsKey, f | k0.tag == 0
      ensures TagBound(Charged(m, cap, key, d, len), k0, f)
    {
      var zero := key.(tag := 0);
      assert TagBound(m, k0, f);
      assert ZeroTotal(m, zero, f) + Part(d, len, f) < TWO_64;
      WithTagGrows(m, cap, key, d, len, k0, f);
      WithTagGrows(m, cap, key, d, len, zero, f);
      ZeroGrows(WithTag(m, cap, key, d, len), cap, zero, d, len, k0, f);
    }
  }

  // ----- runs -----

  ghost predicate BothBounded(c: Counters) {
    TagsBounded(c.statsA) && TagsBounded(c.statsB)
  }

  /** The charge names one of the two maps. */
  predicate Names(sh: Shared, ch: Charge) {
    ch.selector == sh.selectA || ch.selector == sh.selectB
  }

  /** The tag-0 entry that the event adds to can be written, and does not wrap around. */
  ghost predicate KeepsUp(sh: Shared, w: World, e: Event) {
    match e
    case Configure(_) => true
    case Traffic(p) =>
      var ch := ChargeOf(sh, w.settings, p);
      ch.Some? && Names(sh, ch.value) ==>
        StatsLand(sh, w.counters, ch.value, p.dir, p.len) &&
        NoWrap(if ch.value.selector == sh.selectA then w.counters.statsA else w.counters.statsB,
               ch.value.key.(tag := 0), p.dir, p.len)
  }

  ghost predicate AlwaysKeepsUp(sh: Shared, w: World, events: seq<Event>)
    decreases |events|
  {
    |events| == 0 || (KeepsUp(sh, w, events[0]) && AlwaysKeepsUp(sh, Next(sh, w, events[0]), events[1..]))
  }

  /** A charge changes only the selected map, in just this way. */
  lemma ChargeOnA(sh: Shared, c: Counters, ch: Charge, d: Direction, len: nat)
    requires ch.selector == sh.selectA
    ensures ApplyCharge(sh, c, ch, d, len).statsA == Charged(c.statsA, sh.statsCapacity, ch.key, d, len)
    ensures ApplyCharge(sh, c, ch, d, len).statsB == c.statsB
  {
    assert AfterTagged(sh, c, ch, d, len) == c.(statsA := WithTag(c.statsA, sh.statsCapacity, ch.key, d, len));
  }

  lemma ChargeOnB(sh: Shared, c: Counters, ch: Charge, d: Direction, len: nat)
    requires ch.selector == sh.selectB != sh.selectA
    ensures ApplyCharge(sh, c, ch, d, len).statsB == Charged(c.statsB, sh.statsCapacity, ch.key, d, len)
    ensures ApplyCharge(sh, c, ch, d, len).statsA == c.statsA
  {
    assert AfterTagged(sh, c, ch, d, len) == c.(statsB := WithTag(c.statsB, sh.statsCapacity, ch.key, d, len));
  }

  /** A charge that names no map changes neither. */
  lemma ChargeOnNeither(sh: Shared, c: Counters, ch: Charge, d: Direction, len: nat)
    requires !Names(sh, ch)
    ensures ApplyCharge(sh, c, ch, d, len).statsA == c.statsA && ApplyCharge(sh, c, ch, d, len).statsB == c.statsB
  {
    assert AfterTagged(sh, c, ch, d, len) == c;
  }

  lemma PacketKeepsBound(sh: Shared, w: World, p: Packet)
    requires BothBounded(w.counters) && KeepsUp(sh, w, Traffic(p))
    ensures BothBounded(Account(sh, w.settings, w.counters, p))
  {
    var charge := ChargeOf(sh, w.settings, p);
    if charge.Some? {
      var ch, c := charge.value, w.counters;
      if ch.selector == sh.selectA {
        ChargeOnA(sh, c, ch, p.dir, p.len);
        ChargeKeepsBound(c.statsA, sh.statsCapacity, ch.key, p.dir, p.len);
      } else if ch.selector == sh.selectB {
        ChargeOnB(sh, c, ch, p.dir, p.len);
        ChargeKeepsBound(c.statsB, sh.statsCapacity, ch.key, p.dir, p.len);
      } else {
        ChargeOnNeither(sh, c, ch, p.dir, p.len);
      }
    }
  }

  /**
   Over any run in which every tag-0 write finds room and does not wrap, tagged totals never
   exceed the matching tag-0 entry.
   */
  lemma {:induction false} TagsNeverExceedTagZero(sh: Shared, w: World, events: seq<Event>)
    requires BothBounded(w.counters) && AlwaysKeepsUp(sh, w, events)
    ensures BothBounded(RunWorld(sh, w, events).counters)
    decreases |events|
  {
    if |events| > 0 {
      if events[0].Traffic? {
        PacketKeepsBound(sh, w, events[0].packet);
      }
      TagsNeverExceedTagZero(sh, Next(sh, w, events[0]), events[1..]);
    }
  }
}
