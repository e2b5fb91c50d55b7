/**
 Conservation of traffic: what an app has been charged is what its tag-0 entries hold,
 over both maps, however often the maps are switched.
 */
module NetdConservation {
  import opened Wrappers
  import opened Bytes
  import opened Counters64
  import opened NetdUpdate
  import opened MapSums
  import opened NetdAccounting

  /** What a packet brings to a field. */
  function Part(d: Direction, len: nat, f: Field): nat {
    PacketPart(d, f) + LengthPart(d, len, f)
  }

  /** The tag-0 entries of `uid`, over counter sets and interfaces. */
  function TagZeroPart(uid: nat, f: Field, k: StatsKey, v: Value): nat {
    if k.uid == uid && k.tag == 0 then v.Get(f) else 0
  }

  ghost function TagZero(uid: nat, f: Field): (StatsKey, Value) -> nat {
    (k: StatsKey, v: Value) => TagZeroPart(uid, f, k, v)
  }

  function AppTotal(app: map<nat, Value>, uid: nat, f: Field): nat {
    if uid in app then app[uid].Get(f) else 0
  }

  ghost function BothSums(c: Counters, uid: nat, f: Field): nat {
    Sum(c.statsA, TagZero(uid, f)) + Sum(c.statsB, TagZero(uid, f))
  }

  ghost predicate Conserved(c: Counters, uid: nat, f: Field) {
    Same64(AppTotal(c.app, uid, f), BothSums(c, uid, f))
  }

  ghost predicate AllConserved(c: Counters) {
    forall uid, f :: Conserved(c, uid, f)
  }

  /** The tag-0 entry of the packet can be written. */
  predicate StatsLand(sh: Shared, c: Counters, ch: Charge, d: Direction, len: nat) {
    var c1, key := AfterTagged(sh, c, ch, d, len), ch.key.(tag := 0);
    if ch.selector == sh.selectA then Lands(c1.statsA, sh.statsCapacity, key)
    else if ch.selector == sh.selectB then Lands(c1.statsB, sh.statsCapacity, key)
    else false
  }

  /** Both the tag-0 entry and the app's entry are written, or neither. */
  predicate Balanced(sh: Shared, st: Settings, c: Counters, p: Packet) {
    match ChargeOf(sh, st, p)
    case None => true
    case Some(ch) => EvenCharge(sh, c, ch, p.dir, p.len)
  }

  // ----- one update -----

  lemma StoredGets(entry: Option<Value>, d: Direction, len: nat, f: Field)
    ensures Same64(Base(entry).AddPacket(d).AddLength(d, len).Get(f), Base(entry).Get(f) + Part(d, len, f))
  {
    Same64Iff(Base(entry).AddPacket(d).AddLength(d, len).Get(f), Base(entry).Get(f) + Part(d, len, f));
  }

  /** What a write to one of the maps brings to the tag-0 sums of `uid`. */
  function Brings(lands: bool, k: StatsKey, d: Direction, len: nat, uid: nat, f: Field): nat {
    if lands && k.uid == uid && k.tag == 0 then Part(d, len, f) else 0
  }

  lemma StoreSum(m: map<StatsKey, Value>, k: StatsKey, v: Value, uid: nat, f: Field)
    ensures Sum(m[k := v], TagZero(uid, f)) + TagZeroPart(uid, f, k, Base(Lookup(m, k)))
         == Sum(m, TagZero(uid, f)) + TagZeroPart(uid, f, k, v)
  {
    SumStore(m, TagZero(uid, f), k, v);
  }

  lemma PartShifts(uid: nat, f: Field, k: StatsKey, entry: Option<Value>, d: Direction, len: nat)
    ensures Same64(TagZeroPart(uid, f, k, Base(entry).AddPacket(d).AddLength(d, len)),
                   TagZeroPart(uid, f, k, Base(entry)) + Brings(true, k, d, len, uid, f))
  {
    StoredGets(entry, d, len, f);
    SameSelf(0);
  }

  lemma StoreShifts(m: map<StatsKey, Value>, cap: nat, k: StatsKey, d: Direction, len: nat, uid: nat, f: Field)
    ensures Same64(Sum(Store(m, cap, k, d, len), TagZero(uid, f)),
                   Sum(m, TagZero(uid, f)) + Brings(Lands(m, cap, k), k, d, len, uid, f))
  {
    if Lands(m, cap, k) {
      var was, v := Base(Lookup(m, k)), Base(Lookup(m, k)).AddPacket(d).AddLength(d, len);
      StoreSum(m, k, v, uid, f);
      PartShifts(uid, f, k, Lookup(m, k), d, len);
      Shift(Sum(m, TagZero(uid, f)), Sum(m[k := v], TagZero(uid, f)),
            TagZeroPart(uid, f, k, was), TagZeroPart(uid, f, k, v), Brings(true, k, d, len, uid, f));
    } else {
      SameSelf(Sum(m, TagZero(uid, f)));
    }
  }

  lemma StoreShiftsApp(m: map<nat, Value>, cap: nat, k: nat, d: Direction, len: nat, uid: nat, f: Field)
    ensures Same64(AppTotal(Store(m, cap, k, d, len), uid, f),
                   AppTotal(m, uid, f) + if Lands(m, cap, k) && k == uid then Part(d, len, f) else 0)
  {
    StoredGets(Lookup(m, k), d, len, f);
    SameSelf(AppTotal(m, uid, f));
  }

  /** The selected map has the key, or room for it. */
  predicate SelectedLands(sh: Shared, c: Counters, selector: bv8, k: StatsKey) {
    if selector == sh.selectA then Lands(c.statsA, sh.statsCapacity, k)
    else selector == sh.selectB && Lands(c.statsB, sh.statsCapacity, k)
  }

  lemma SelectedShifts(sh: Shared, c: Counters, selector: bv8, k: StatsKey, d: Direction, len: nat, uid: nat, f: Field)
    ensures Same64(BothSums(StoreSelected(sh, c, selector, k, d, len), uid, f),
                   BothSums(c, uid, f) + Brings(SelectedLands(sh, c, selector, k), k, d, len, uid, f))
  {
    var w, brings := TagZero(uid, f), Brings(SelectedLands(sh, c, selector, k), k, d, len, uid, f);
    if selector == sh.selectA {
      StoreShifts(c.statsA, sh.statsCapacity, k, d, len, uid, f);
      AddBoth(Sum(c.statsA, w), Sum(c.statsB, w), Sum(Store(c.statsA, sh.statsCapacity, k, d, len), w), brings);
    } else if selector == sh.selectB {
      StoreShifts(c.statsB, sh.statsCapacity, k, d, len, uid, f);
      AddBoth(Sum(c.statsB, w), Sum(c.statsA, w), Sum(Store(c.statsB, sh.statsCapacity, k, d, len), w), brings);
    } else {
      SameSelf(BothSums(c, uid, f));
    }
  }

  // ----- one packet -----

  /** How a charge moves the sums over the maps. */
  lemma ChargeShiftsSums(sh: Shared, c: Counters, ch: Charge, d: Direction, len: nat, uid: nat, f: Field)
    ensures Same64(BothSums(ApplyCharge(sh, c, ch, d, len), uid, f),
                   BothSums(c, uid, f) + Brings(StatsLand(sh, c, ch, d, len), ch.key.(tag := 0), d, len, uid, f))
  {
    var key, c1 := ch.key.(tag := 0), AfterTagged(sh, c, ch, d, len);
    TaggedShiftsNothing(sh, c, ch, d, len, uid, f);
    SelectedShifts(sh, c1, ch.selector, key, d, len, uid, f);
    var c2 := StoreSelected(sh, c1, ch.selector, key, d, len);
    assert BothSums(ApplyCharge(sh, c, ch, d, len), uid, f) == BothSums(c2, uid, f);
    ShiftTwice(BothSums(c, uid, f), BothSums(c1, uid, f), BothSums(c2, uid, f),
               Brings(StatsLand(sh, c, ch, d, len), key, d, len, uid, f));
  }

  lemma TaggedShiftsNothing(sh: Shared, c: Counters, ch: Charge, d: Direction, len: nat, uid: nat, f: Field)
    ensures Same64(BothSums(AfterTagged(sh, c, ch, d, len), uid, f), BothSums(c, uid, f))
  {
    if ch.key.tag != 0 {
      SelectedShifts(sh, c, ch.selector, ch.key, d, len, uid, f);
    } else {
      SameSelf(BothSums(c, uid, f));
    }
  }

  /** How a charge moves the app counters. */
  lemma ChargeShiftsApp(sh: Shared, c: Counters, ch: Charge, d: Direction, len: nat, uid: nat, f: Field)
    ensures Same64(AppTotal(ApplyCharge(sh, c, ch, d, len).app, uid, f),
                   AppTotal(c.app, uid, f) +
                   Brings(Lands(c.app, sh.appCapacity, ch.key.uid), ch.key.(tag := 0), d, len, uid, f))
  {
    StoreShiftsApp(c.app, sh.appCapacity, ch.key.uid, d, len, uid, f);
    assert ApplyCharge(sh, c, ch, d, len).app == Store(c.app, sh.appCapacity, ch.key.uid, d, len);
  }

  /** The charge is written on both sides, or on neither. */
  predicate EvenCharge(sh: Shared, c: Counters, ch: Charge, d: Direction, len: nat) {
    StatsLand(sh, c, ch, d, len) == Lands(c.app, sh.appCapacity, ch.key.uid)
  }

  lemma EvenChargeConserves(sh: Shared, c: Counters, ch: Charge, d: Direction, len: nat, uid: nat, f: Field)
    requires Conserved(c, uid, f) && EvenCharge(sh, c, ch, d, len)
    ensures Conserved(ApplyCharge(sh, c, ch, d, len), uid, f)
  {
    var t := ApplyCharge(sh, c, ch, d, len);
    ChargeShiftsSums(sh, c, ch, d, len, uid, f);
    ChargeShiftsApp(sh, c, ch, d, len, uid, f);
    BothMove(AppTotal(c.app, uid, f), BothSums(c, uid, f), AppTotal(t.app, uid, f), BothSums(t, uid, f),
             Brings(Lands(c.app, sh.appCapacity, ch.key.uid), ch.key.(tag := 0), d, len, uid, f));
  }

  /** Otherwise the packet itself is counted on one side only. */
  lemma UnevenChargeBreaks(sh: Shared, c: Counters, ch: Charge, d: Direction, len: nat)
    requires AllConserved(c) && !EvenCharge(sh, c, ch, d, len)
    ensures !AllConserved(ApplyCharge(sh, c, ch, d, len))
  {
    var t := ApplyCharge(sh, c, ch, d, len);
    var uid, f := ch.key.uid, if d.Egress? then TxPackets else RxPackets;
    assert Conserved(c, uid, f);
    ChargeShiftsSums(sh, c, ch, d, len, uid, f);
    ChargeShiftsApp(sh, c, ch, d, len, uid, f);
    assert Part(d, len, f) == 1;
    SameSym(AppTotal(c.app, uid, f), BothSums(c, uid, f));
    if StatsLand(sh, c, ch, d, len) {
      OneMoves(BothSums(c, uid, f), AppTotal(c.app, uid, f), BothSums(t, uid, f), AppTotal(t.app, uid, f));
    } else {
      OneMoves(AppTotal(c.app, uid, f), BothSums(c, uid, f), AppTotal(t.app, uid, f), BothSums(t, uid, f));
    }
    assert !Conserved(t, uid, f);
  }

  /**
   A packet keeps the books balanced exactly if it is not counted at all, or its tag-0
   entry and its app entry are both written, or neither.
   */
  lemma PacketConservesIff(sh: Shared, st: Settings, c: Counters, p: Packet)
    requires AllConserved(c)
    ensures AllConserved(Account(sh, st, c, p)) <==> Balanced(sh, st, c, p)
  {
    var charge := ChargeOf(sh, st, p);
    if charge.Some? {
      if EvenCharge(sh, c, charge.value, p.dir, p.len) {
        forall uid, f
          ensures Conserved(ApplyCharge(sh, c, charge.value, p.dir, p.len), uid, f)
        {
          assert Conserved(c, uid, f);
          EvenChargeConserves(sh, c, charge.value, p.dir, p.len, uid, f);
        }
      } else {
        UnevenChargeBreaks(sh, c, charge.value, p.dir, p.len);
      }
    }
  }

  // ----- runs -----

  /** A packet, or a new configuration from user space; any map may be switched on. */
  datatype Event =
    | Traffic(packet: Packet)
    | Configure(settings: Settings)

  datatype World = World(settings: Settings, counters: Counters)

  function Next(sh: Shared, w: World, e: Event): World {
    match e
    case Traffic(p) => w.(counters := Account(sh, w.settings, w.counters, p))
    case Configure(st) => w.(settings := st)
  }

  function RunWorld(sh: Shared, w: World, events: seq<Event>): World
    decreases |events|
  {
    if |events| == 0 then w else RunWorld(sh, Next(sh, w, events[0]), events[1..])
  }

  /** Every selector ever configured names one of the two maps. */
  predicate SelectsAMap(sh: Shared, st: Settings) {
    sh.currentMapKey in st.config ==>
      st.config[sh.currentMapKey] == sh.selectA || st.config[sh.currentMapKey] == sh.selectB
  }

  predicate GoodEvent(sh: Shared, e: Event) {
    e.Configure? ==> SelectsAMap(sh, e.settings)
  }

  /** With `n` events to come, no map can fill up: each packet adds two entries at most. */
  predicate RoomFor(sh: Shared, c: Counters, n: nat) {
    |c.statsA| + 2 * n <= sh.statsCapacity && |c.statsB| + 2 * n <= sh.statsCapacity && |c.app| + n <= sh.appCapacity
  }

  lemma StoreSize<K>(m: map<K, Value>, cap: nat, k: K, d: Direction, len: nat)
    ensures |Store(m, cap, k, d, len)| <= |m| + 1
  {
    if k in m {
      var v := Base(Lookup(m, k)).AddPacket(d).AddLength(d, len);
      assert m[k := v].Keys == m.Keys;
      assert |m[k := v].Keys| == |m.Keys|;
    }
  }

  lemma RoomStays(sh: Shared, w: World, e: Event, n: nat)
    requires RoomFor(sh, w.counters, n + 1) && SelectsAMap(sh, w.settings)
    ensures RoomFor(sh, Next(sh, w, e).counters, n)
    ensures e.Traffic? ==> Balanced(sh, w.settings, w.counters, e.packet)
  {
    if e.Traffic? && ChargeOf(sh, w.settings, e.packet).Some? {
      var p, c, ch := e.packet, w.counters, ChargeOf(sh, w.settings, e.packet).value;
      var c1 := AfterTagged(sh, c, ch, p.dir, p.len);
      StoreSize(c.statsA, sh.statsCapacity, ch.key, p.dir, p.len);
      StoreSize(c.statsB, sh.statsCapacity, ch.key, p.dir, p.len);
      StoreSize(c1.statsA, sh.statsCapacity, ch.key.(tag := 0), p.dir, p.len);
      StoreSize(c1.statsB, sh.statsCapacity, ch.key.(tag := 0), p.dir, p.len);
      StoreSize(c.app, sh.appCapacity, ch.key.uid, p.dir, p.len);
    }
  }

  /** Every packet of the run is written on both sides, or on neither. */
  predicate EvenRun(sh: Shared, w: World, events: seq<Event>)
    decreases |events|
  {
    |events| == 0 ||
    ((events[0].Traffic? ==> Balanced(sh, w.settings, w.counters, events[0].packet)) &&
     EvenRun(sh, Next(sh, w, events[0]), events[1..]))
  }

  /** The books balance after every event of the run. */
  ghost predicate AlwaysConserved(sh: Shared, w: World, events: seq<Event>)
    decreases |events|
  {
    AllConserved(w.counters) && (|events| > 0 ==> AlwaysConserved(sh, Next(sh, w, events[0]), events[1..]))
  }

  /** Whatever is configured and however full the maps: the books balance throughout a run exactly if it is even. */
  lemma {:induction false} RunConservesIff(sh: Shared, w: World, events: seq<Event>)
    requires AllConserved(w.counters)
    ensures AlwaysConserved(sh, w, events) <==> EvenRun(sh, w, events)
    decreases |events|
  {
    if |events| > 0 {
      var next := Next(sh, w, events[0]);
      if events[0].Traffic? {
        PacketConservesIff(sh, w.settings, w.counters, events[0].packet);
      }
      if AllConserved(next.counters) {
        RunConservesIff(sh, next, events[1..]);
      }
    }
  }

  lemma {:induction false} RunConserves(sh: Shared, w: World, events: seq<Event>)
    requires AllConserved(w.counters) && SelectsAMap(sh, w.settings) && RoomFor(sh, w.counters, |events|)
    requires forall i :: 0 <= i < |events| ==> GoodEvent(sh, events[i])
    ensures AllConserved(RunWorld(sh, w, events).counters)
    decreases |events|
  {
    if |events| > 0 {
      assert GoodEvent(sh, events[0]);
      RoomStays(sh, w, events[0], |events| - 1);
      if events[0].Traffic? {
        PacketConservesIff(sh, w.settings, w.counters, events[0].packet);
      }
      RunConserves(sh, Next(sh, w, events[0]), events[1..]);
    }
  }

  const NO_COUNTERS := Counters(map[], map[], map[])

  lemma NothingIsConserved()
    ensures AllConserved(NO_COUNTERS)
  {
    SameSelf(0);
    forall uid, f
      ensures Conserved(NO_COUNTERS, uid, f)
    {
      assert AppTotal(NO_COUNTERS.app, uid, f) == 0 && BothSums(NO_COUNTERS, uid, f) == 0;
    }
  }

  lemma ConservedMod(c: Counters, uid: nat, f: Field)
    requires AllConserved(c)
    ensures AppTotal(c.app, uid, f) % TWO_64 == BothSums(c, uid, f) % TWO_64
  {
    assert Conserved(c, uid, f);
    Same64Iff(AppTotal(c.app, uid, f), BothSums(c, uid, f));
  }

  /**
   From empty maps, over any packets and any switches between A and B that cannot fill
   the maps, every app counter equals its tag-0 entries summed over both maps, modulo 2^64.
   */
  lemma TrafficIsConserved(sh: Shared, st: Settings, events: seq<Event>, uid: nat, f: Field)
    requires SelectsAMap(sh, st) && 2 * |events| <= sh.statsCapacity && |events| <= sh.appCapacity
    requires forall i :: 0 <= i < |events| ==> GoodEvent(sh, events[i])
    ensures
      var t := RunWorld(sh, World(st, NO_COUNTERS), events).counters;
      AppTotal(t.app, uid, f) % TWO_64 == BothSums(t, uid, f) % TWO_64
  {
    NothingIsConserved();
    RunConserves(sh, World(st, NO_COUNTERS), events);
    ConservedMod(RunWorld(sh, World(st, NO_COUNTERS), events).counters, uid, f);
  }

  /** Room for one entry by key and two by uid; nothing is dropped, and map A is selected. */
  predicate Tight(sh: Shared, st: Settings) {
    sh.statsCapacity == 1 && sh.appCapacity == 2 &&
    st == Settings(map[], map[], map[sh.currentMapKey := sh.selectA], map[])
  }

  function Arriving(uid: nat): Packet {
    Packet(Ingress, 100, 0, [], uid, 0, 0)
  }

  lemma ArrivingIsCharged(sh: Shared, st: Settings, uid: nat)
    requires Tight(sh, st)
    ensures ChargeOf(sh, st, Arriving(uid)) == Some(Charge(StatsKey(uid, 0, 0, 0), sh.selectA))
  {
  }

  /** The second of two users finds map A full: its packet is counted for the app only. */
  lemma FullMapUnbalances(sh: Shared, st: Settings)
    requires Tight(sh, st)
    ensures
      var one := Account(sh, st, NO_COUNTERS, Arriving(1));
      AllConserved(one) && !AllConserved(Account(sh, st, one, Arriving(2)))
  {
    var one := Account(sh, st, NO_COUNTERS, Arriving(1));
    ArrivingIsCharged(sh, st, 1);
    ArrivingIsCharged(sh, st, 2);
    NothingIsConserved();
    PacketConservesIff(sh, st, NO_COUNTERS, Arriving(1));
    assert one.statsA.Keys == {StatsKey(1, 0, 0, 0)} && one.app.Keys == {1};
    assert |one.statsA| == |one.statsA.Keys| == 1 && |one.app| == |one.app.Keys| == 1;
    PacketConservesIff(sh, st, one, Arriving(2));
  }
}
