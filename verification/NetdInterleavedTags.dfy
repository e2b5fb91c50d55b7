/**
 Tags under every interleaving: what the tags of a key show is covered by its tag-0 entry and by
 what the calls under way have still to add to that entry.
 */
module NetdInterleavedTags {
  import opened Wrappers
  import opened Bytes
  import opened Counters64
  import opened NetdUpdate
  import opened MapSums
  import opened NetdAccounting
  import opened NetdConservation
  import opened NetdTags
  import opened NetdInterleaving

  /** A tag-0 entry of one of the maps. */
  predicate IsZero(t: Target) {
    !t.OnApp? && t.key.tag == 0
  }

  function Shown(c: Counters, t: Target, f: Field): nat {
    Base(EntryAt(c, t)).Get(f)
  }

  // ----- what calls bring -----

  /** A call brings a tag-0 entry all it brings to the tags of that entry. */
  lemma TargetsCoverTags(sh: Shared, ch: Charge, zero: Target, d: Direction, len: nat, f: Field)
    requires IsZero(zero)
    ensures Worth(TagsSide(zero), Targets(sh, ch), d, len, f) <= Worth(EntrySide(zero), Targets(sh, ch), d, len, f)
  {
    if ch.selector == sh.selectA {
      OnCoversTags(ch, zero, OnA(ch.key), OnA(ch.key.(tag := 0)), d, len, f);
    } else if ch.selector == sh.selectB {
      OnCoversTags(ch, zero, OnB(ch.key), OnB(ch.key.(tag := 0)), d, len, f);
    } else {
      assert Worth(TagsSide(zero), [OnApp(ch.key.uid)][1..], d, len, f) == 0;
    }
  }

  lemma OnCoversTags(ch: Charge, zero: Target, tagged: Target, plain: Target, d: Direction, len: nat, f: Field)
    requires IsZero(zero) && !tagged.OnApp? && tagged.key == ch.key && plain == tagged.(key := ch.key.(tag := 0))
    ensures
      var ts := (if ch.key.tag != 0 then [tagged] else []) + [plain] + [OnApp(ch.key.uid)];
      Worth(TagsSide(zero), ts, d, len, f) <= Worth(EntrySide(zero), ts, d, len, f)
  {
    var rest := [plain, OnApp(ch.key.uid)];
    WorthOfTwo(TagsSide(zero), rest, d, len, f);
    WorthOfTwo(EntrySide(zero), rest, d, len, f);
    if ch.key.tag != 0 {
      assert ([tagged] + [plain] + [OnApp(ch.key.uid)])[1..] == rest;
    } else {
      assert [] + [plain] + [OnApp(ch.key.uid)] == rest;
    }
  }

  /** So do all calls so far. */
  ghost predicate TagsCovered(k: Kernel, zero: Target, f: Field) {
    Brought(TagsSide(zero), k.begun, f) <= Brought(EntrySide(zero), k.begun, f)
  }

  lemma ActCoversTags(sh: Shared, k: Kernel, m: Move, zero: Target, f: Field)
    requires IsZero(zero) && TagsCovered(k, zero, f)
    ensures TagsCovered(Act(sh, k, m), zero, f)
  {
    if m.Enter? && m.cpu < |k.callers| && k.callers[m.cpu].todo == [] {
      var call := Call(Targets(sh, m.charge), m.dir, m.len);
      TargetsCoverTags(sh, m.charge, zero, m.dir, m.len, f);
      OneMoreCall(TagsSide(zero), k.begun, call, f);
      OneMoreCall(EntrySide(zero), k.begun, call, f);
    }
  }

  lemma {:induction false} RunCoversTags(sh: Shared, k: Kernel, moves: seq<Move>, zero: Target, f: Field)
    requires IsZero(zero) && TagsCovered(k, zero, f)
    ensures TagsCovered(RunKernel(sh, k, moves), zero, f)
    decreases |moves|
  {
    if |moves| > 0 {
      ActCoversTags(sh, k, moves[0], zero, f);
      RunCoversTags(sh, Act(sh, k, moves[0]), moves[1..], zero, f);
    }
  }

  // ----- the bound -----

  /**
   At every state of every interleaving, with full maps and wraps: tags, with what they are owed and
   what they gave up, are covered by their tag-0 entry, with the same, and 2^64 for each of its wraps.
   */
  lemma TagsAreCovered(sh: Shared, n: nat, c: Counters, moves: seq<Move>, zero: Target, f: Field)
    requires IsZero(zero) && TagTotal(c, zero, f) <= Shown(c, zero, f)
    ensures
      var k := RunKernel(sh, Resting(n, c), moves);
      BooksOf(TagsSide(zero), k, f)
      <= BooksOf(EntrySide(zero), k, f) + Turns(Wraps(sh, EntrySide(zero), Resting(n, c), moves, f))
  {
    EachSideIsExact(sh, TagsSide(zero), n, c, moves, f);
    EachSideIsExact(sh, EntrySide(zero), n, c, moves, f);
    RunCoversTags(sh, Resting(n, c), moves, zero, f);
  }

  /**
   While inserting finds room and the tag-0 entry has not wrapped: its tags show no more than it
   does, together with what the calls under way have still to add to it.
   */
  lemma TagsNeverExceedWhatIsDue(sh: Shared, n: nat, c: Counters, moves: seq<Move>, zero: Target, f: Field)
    requires IsZero(zero) && TagTotal(c, zero, f) <= Shown(c, zero, f)
    requires Wraps(sh, EntrySide(zero), Resting(n, c), moves, f) == 0
    requires forall i :: 0 <= i < |moves| ==> HasRoom(moves[i])
    ensures
      var k := RunKernel(sh, Resting(n, c), moves);
      TagTotal(k.counters, zero, f) + AllOwe(TagsSide(zero), k.callers, f)
      <= Shown(k.counters, zero, f) + AllOwe(EntrySide(zero), k.callers, f)
  {
    TagsAreCovered(sh, n, c, moves, zero, f);
    RunKeepsKernelInv(sh, Resting(n, c), moves, true);
  }

  /** The run wraps none of the tag-0 entries. */
  ghost predicate NeverWraps(sh: Shared, n: nat, c: Counters, moves: seq<Move>) {
    forall zero: Target, f :: IsZero(zero) ==> Wraps(sh, EntrySide(zero), Resting(n, c), moves, f) == 0
  }

  lemma RestIsBounded(sh: Shared, n: nat, c: Counters, moves: seq<Move>, zero: Target, f: Field)
    requires BothBounded(c) && IsZero(zero) && AtRest(RunKernel(sh, Resting(n, c), moves))
    requires Wraps(sh, EntrySide(zero), Resting(n, c), moves, f) == 0
    requires forall i :: 0 <= i < |moves| ==> HasRoom(moves[i])
    ensures
      var t := RunKernel(sh, Resting(n, c), moves).counters;
      TagTotal(t, zero, f) <= Shown(t, zero, f)
  {
    assert TagBound(if zero.OnA? then c.statsA else c.statsB, zero.key, f);
    TagsNeverExceedWhatIsDue(sh, n, c, moves, zero, f);
    RestingOweNothing(EntrySide(zero), RunKernel(sh, Resting(n, c), moves).callers, f);
  }

  /** However the calls interleave: whenever all CPUs are at rest, no tags exceed their tag-0 entry. */
  lemma InterleavedTagsNeverExceedTagZero(sh: Shared, n: nat, c: Counters, moves: seq<Move>)
    requires BothBounded(c) && NeverWraps(sh, n, c, moves) && AtRest(RunKernel(sh, Resting(n, c), moves))
    requires forall i :: 0 <= i < |moves| ==> HasRoom(moves[i])
    ensures BothBounded(RunKernel(sh, Resting(n, c), moves).counters)
  {
    var t := RunKernel(sh, Resting(n, c), moves).counters;
    forall k0: StatsKey, f | k0.tag == 0
      ensures TagBound(t.statsA, k0, f) && TagBound(t.statsB, k0, f)
    {
      RestIsBounded(sh, n, c, moves, OnA(k0), f);
      RestIsBounded(sh, n, c, moves, OnB(k0), f);
    }
  }

  // ----- when an entry wraps -----

  lemma StepFits(entry: Option<Value>, cpu: Cpu, full: bool, f: Field)
    requires Base(entry).Get(f) < TWO_64
    ensures Base(UpdateStep(entry, cpu, full).entry).Get(f) < TWO_64
  {
  }

  lemma ActFits(sh: Shared, k: Kernel, m: Move, t: Target, f: Field)
    requires Shown(k.counters, t, f) < TWO_64
    ensures Shown(Act(sh, k, m).counters, t, f) < TWO_64
  {
    if m.GoOn? && m.cpu < |k.callers| && k.callers[m.cpu].todo != [] {
      var at, cpu := k.callers[m.cpu].todo[0], k.callers[m.cpu].cpu;
      StepFits(EntryAt(k.counters, t), cpu, m.full, f);
      if at != t {
        var u := UpdateStep(EntryAt(k.counters, at), cpu, m.full);
        assert u.entry.Some? ==> EntryAt(Put(k.counters, at, u.entry.value), t) == EntryAt(k.counters, t);
      }
    }
  }

  lemma {:induction false} RunFits(sh: Shared, k: Kernel, moves: seq<Move>, t: Target, f: Field)
    requires Shown(k.counters, t, f) < TWO_64
    ensures Shown(RunKernel(sh, k, moves).counters, t, f) < TWO_64
    decreases |moves|
  {
    if |moves| > 0 {
      ActFits(sh, k, moves[0], t, f);
      RunFits(sh, Act(sh, k, moves[0]), moves[1..], t, f);
    }
  }

  /**
   With room, a run that has come to rest has wrapped an entry exactly if first value and all it was
   brought exceed 64 bits.
   */
  lemma WrapsIff(sh: Shared, n: nat, c: Counters, moves: seq<Move>, t: Target, f: Field)
    requires Shown(c, t, f) < TWO_64 && AtRest(RunKernel(sh, Resting(n, c), moves))
    requires forall i :: 0 <= i < |moves| ==> HasRoom(moves[i])
    ensures
      Wraps(sh, EntrySide(t), Resting(n, c), moves, f) > 0 <==>
      Shown(c, t, f) + Brought(EntrySide(t), RunKernel(sh, Resting(n, c), moves).begun, f) >= TWO_64
  {
    var k := RunKernel(sh, Resting(n, c), moves);
    EachSideIsExact(sh, EntrySide(t), n, c, moves, f);
    RunKeepsKernelInv(sh, Resting(n, c), moves, true);
    RestingOweNothing(EntrySide(t), k.callers, f);
    RunFits(sh, Resting(n, c), moves, t, f);
  }

  // ----- why the debts and the wraps are needed -----

  const TAGGED := Charge(StatsKey(7, 1, 0, 0), 0)

  /** A call between its two updates: the tag shows a packet that the tag-0 entry does not show yet. */
  lemma HalfwayTheTagsLead(sh: Shared)
    requires sh.statsCapacity > 0 && sh.selectA == 0
    ensures
      var moves := [Enter(0, TAGGED, Ingress, 100)] + UpdateMoves(sh, NO_COUNTERS, OnA(TAGGED.key));
      !TagBound(RunKernel(sh, Resting(1, NO_COUNTERS), moves).counters.statsA, TAGGED.key.(tag := 0), RxPackets)
  {
    var enter := Enter(0, TAGGED, Ingress, 100);
    var key := TAGGED.key;
    var todo := Targets(sh, TAGGED);
    var k := Act(sh, Resting(1, NO_COUNTERS), enter);
    assert todo[0] == OnA(key);
    RunInTwo(sh, Resting(1, NO_COUNTERS), [enter], UpdateMoves(sh, NO_COUNTERS, OnA(key)));
    assert RunKernel(sh, Resting(1, NO_COUNTERS), [enter]) == k;
    UpdateAlone(sh, k, todo, Ingress, 100);
    FirstTaggedPacket(sh);
  }

  lemma FirstTaggedPacket(sh: Shared)
    requires sh.statsCapacity > 0
    ensures
      !TagBound(StoreAt(sh, NO_COUNTERS, OnA(TAGGED.key), Ingress, 100).statsA, TAGGED.key.(tag := 0), RxPackets)
  {
    var key, v := TAGGED.key, Value(1, 100, 0, 0);
    assert StoreAt(sh, NO_COUNTERS, OnA(key), Ingress, 100).statsA == map[][key := v];
    TaggedSum(map[], key, v, key.(tag := 0), RxPackets);
  }

  /** An entry that is about to wrap. */
  const BRIM := Counters(map[TAGGED.key.(tag := 0) := Value(TWO_64 - 1, 0, 0, 0)], map[], map[])

  lemma BrimIsBounded()
    ensures BothBounded(BRIM)
  {
    forall k0: StatsKey, f | k0.tag == 0
      ensures TagBound(BRIM.statsA, k0, f) && TagBound(BRIM.statsB, k0, f)
    {
      SumNothing(BRIM.statsA, Tagged(k0, f));
    }
  }

  lemma BrimCharged(cap: nat)
    requires cap > 1
    ensures
      var zero := TAGGED.key.(tag := 0);
      Charged(BRIM.statsA, cap, TAGGED.key, Ingress, 100)
      == BRIM.statsA[TAGGED.key := Value(1, 100, 0, 0)][zero := Value(0, 100, 0, 0)]
  {
    var m, key, zero := BRIM.statsA, TAGGED.key, TAGGED.key.(tag := 0);
    assert |m.Keys| == |{zero}| == 1;
    assert WithTag(m, cap, key, Ingress, 100) == m[key := Value(1, 100, 0, 0)];
  }

  lemma BrimSpills()
    ensures
      var zero := TAGGED.key.(tag := 0);
      !TagBound(BRIM.statsA[TAGGED.key := Value(1, 100, 0, 0)][zero := Value(0, 100, 0, 0)], zero, RxPackets)
  {
    var zero, v := TAGGED.key.(tag := 0), Value(1, 100, 0, 0);
    TaggedSum(BRIM.statsA, TAGGED.key, v, zero, RxPackets);
    TaggedSum(BRIM.statsA[TAGGED.key := v], zero, Value(0, 100, 0, 0), zero, RxPackets);
  }

  /** A tag-0 entry that wraps falls behind its tags. */
  lemma WrappedEntryFallsBehind(sh: Shared)
    requires sh.statsCapacity > 1 && sh.selectA == 0
    ensures
      var moves := [Enter(0, TAGGED, Ingress, 100)] + AllMoves(sh, BRIM, Targets(sh, TAGGED), Ingress, 100);
      var k := RunKernel(sh, Resting(1, BRIM), moves);
      BothBounded(BRIM) && AtRest(k) && !TagBound(k.counters.statsA, TAGGED.key.(tag := 0), RxPackets)
  {
    BrimIsBounded();
    CallAlone(sh, BRIM, TAGGED, Ingress, 100);
    ChargeOnA(sh, BRIM, TAGGED, Ingress, 100);
    BrimCharged(sh.statsCapacity);
    BrimSpills();
  }
}
