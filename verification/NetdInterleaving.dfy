/**
 bpf_traffic_account as many CPUs run it at once, step by step and on any keys: each call updates the
 entry of its tag, that of tag 0 and that of its app one after the other, while others do the same.
 */
module NetdInterleaving {
  import opened Wrappers
  import opened Bytes
  import opened Counters64
  import opened NetdUpdate
  import opened MapSums
  import opened NetdAccounting
  import opened NetdConservation
  import opened NetdTags

  /** An entry that a call updates. */
  datatype Target = OnA(key: StatsKey) | OnB(key: StatsKey) | OnApp(uid: nat)

  function EntryAt(c: Counters, t: Target): Option<Value> {
    match t
    case OnA(key) => Lookup(c.statsA, key)
    case OnB(key) => Lookup(c.statsB, key)
    case OnApp(uid) => Lookup(c.app, uid)
  }

  function Put(c: Counters, t: Target, v: Value): Counters {
    match t
    case OnA(key) => c.(statsA := c.statsA[key := v])
    case OnB(key) => c.(statsB := c.statsB[key := v])
    case OnApp(uid) => c.(app := c.app[uid := v])
  }

  /** update_stats_with_config: the entry it goes for, if the selector names a map. */
  function OnSelected(sh: Shared, selector: bv8, key: StatsKey): seq<Target> {
    if selector == sh.selectA then [OnA(key)] else if selector == sh.selectB then [OnB(key)] else []
  }

  /** What bpf_traffic_account updates, in order. */
  function Targets(sh: Shared, ch: Charge): (ts: seq<Target>)
    ensures |ts| > 0
  {
    (if ch.key.tag != 0 then OnSelected(sh, ch.selector, ch.key) else []) +
    OnSelected(sh, ch.selector, ch.key.(tag := 0)) + [OnApp(ch.key.uid)]
  }

  /** A CPU: the updates still to do, of which the first is under way. */
  datatype Caller = Caller(todo: seq<Target>, cpu: Cpu)

  /** A call that has begun, and an update that was given up, with what it would have added. */
  datatype Call = Call(targets: seq<Target>, dir: Direction, len: nat)
  datatype Loss = Loss(target: Target, missing: Value)

  datatype Kernel = Kernel(counters: Counters, callers: seq<Caller>, begun: seq<Call>, lost: seq<Loss>)

  /**
   An idle CPU enters with any charge, for the settings may change between any two reads; or a CPU
   goes on, `full` saying that the map it is about to insert into has no room.
   */
  datatype Move =
    | Enter(cpu: nat, charge: Charge, dir: Direction, len: nat)
    | GoOn(cpu: nat, full: bool)

  /** One step of bpf_update_stats, taken by one CPU on the entry it is at. */
  function UpdateStep(entry: Option<Value>, cpu: Cpu, full: bool): (u: State)
    ensures |u.cpus| == 1
  {
    Apply(State(entry, [cpu], ZERO, ZERO, ZERO), Step(0, full))
  }

  /** With an update done, the next one starts. */
  function Onward(todo: seq<Target>, cpu: Cpu): Caller
    requires todo != []
  {
    if cpu.pc != Idle then Caller(todo, cpu)
    else Caller(todo[1..], cpu.(pc := if |todo| == 1 then Idle else Find))
  }

  function After(k: Kernel, i: nat, full: bool): Kernel
    requires i < |k.callers| && k.callers[i].todo != []
  {
    var c := k.callers[i];
    var u := UpdateStep(EntryAt(k.counters, c.todo[0]), c.cpu, full);
    Kernel(if u.entry.Some? then Put(k.counters, c.todo[0], u.entry.value) else k.counters,
           k.callers[i := Onward(c.todo, u.cpus[0])],
           k.begun,
           if u.lost == ZERO then k.lost else k.lost + [Loss(c.todo[0], u.lost)])
  }

  function Entered(k: Kernel, i: nat, call: Call): Kernel
    requires i < |k.callers|
  {
    k.(callers := k.callers[i := Caller(call.targets, Cpu(Find, call.dir, call.len))], begun := k.begun + [call])
  }

  /** A move of a CPU that does not exist, or cannot take it, changes nothing. */
  function Act(sh: Shared, k: Kernel, m: Move): (t: Kernel)
    ensures |t.callers| == |k.callers|
  {
    if m.cpu >= |k.callers| then k
    else
      match m
      case Enter(i, ch, d, len) =>
        if k.callers[i].todo != [] then k
        else Entered(k, i, Call(Targets(sh, ch), d, len))
      case GoOn(i, full) => if k.callers[i].todo == [] then k else After(k, i, full)
  }

  function RunKernel(sh: Shared, k: Kernel, moves: seq<Move>): (t: Kernel)
    decreases |moves|
  {
    if |moves| == 0 then k else RunKernel(sh, Act(sh, k, moves[0]), moves[1..])
  }

  /** `n` idle CPUs. */
  function Resting(n: nat, c: Counters): Kernel {
    Kernel(c, seq(n, _ => Caller([], Cpu(Idle, Egress, 0))), [], [])
  }

  // ----- the two sides of the books -----

  function If(b: bool, x: nat): nat {
    if b then x else 0
  }

  /**
   What an account is kept of: the app counter of a uid, its tag-0 entries over both maps, one
   entry, or all tags of a tag-0 entry.
   */
  datatype Side = AppSide(uid: nat) | TagZeroSide(uid: nat) | EntrySide(entry: Target) | TagsSide(zero: Target)

  /** The entry is one of the tags of `zero`. */
  predicate TagOf(zero: Target, t: Target) {
    ((zero.OnA? && t.OnA?) || (zero.OnB? && t.OnB?)) && t.key.tag != 0 && t.key.(tag := 0) == zero.key
  }

  predicate Counts(side: Side, t: Target) {
    match side
    case AppSide(uid) => t == OnApp(uid)
    case TagZeroSide(uid) => !t.OnApp? && t.key.uid == uid && t.key.tag == 0
    case EntrySide(entry) => t == entry
    case TagsSide(zero) => TagOf(zero, t)
  }

  ghost function TagTotal(c: Counters, zero: Target, f: Field): nat {
    match zero
    case OnA(key) => Sum(c.statsA, Tagged(key, f))
    case OnB(key) => Sum(c.statsB, Tagged(key, f))
    case OnApp(_) => 0
  }

  ghost function Total(side: Side, c: Counters, f: Field): nat {
    match side
    case AppSide(uid) => AppTotal(c.app, uid, f)
    case TagZeroSide(uid) => BothSums(c, uid, f)
    case EntrySide(entry) => Base(EntryAt(c, entry)).Get(f)
    case TagsSide(zero) => TagTotal(c, zero, f)
  }

  /** What whole updates bring to a side. */
  function Worth(side: Side, todo: seq<Target>, d: Direction, len: nat, f: Field): nat {
    if |todo| == 0 then 0
    else (if Counts(side, todo[0]) then Part(d, len, f) else 0) + Worth(side, todo[1..], d, len, f)
  }

  /** What a CPU has still to add. */
  function Owes(side: Side, c: Caller, f: Field): nat {
    if |c.todo| == 0 then 0
    else (if Counts(side, c.todo[0]) then Due(c.cpu, f) else 0) +
         Worth(side, c.todo[1..], c.cpu.dir, c.cpu.len, f)
  }

  function AllOwe(side: Side, callers: seq<Caller>, f: Field): nat {
    if |callers| == 0 then 0 else Owes(side, callers[0], f) + AllOwe(side, callers[1..], f)
  }

  /** What all calls so far bring. */
  function Brought(side: Side, calls: seq<Call>, f: Field): nat {
    if |calls| == 0 then 0
    else
      var last := calls[|calls| - 1];
      Brought(side, calls[..|calls| - 1], f) + Worth(side, last.targets, last.dir, last.len, f)
  }

  /** What was given up. */
  function Lost(side: Side, lost: seq<Loss>, f: Field): nat {
    if |lost| == 0 then 0
    else
      var last := lost[|lost| - 1];
      Lost(side, lost[..|lost| - 1], f) + if Counts(side, last.target) then last.missing.Get(f) else 0
  }

  /** What is on the counters, what is still to come and what was given up. */
  ghost function BooksOf(side: Side, k: Kernel, f: Field): nat {
    Total(side, k.counters, f) + AllOwe(side, k.callers, f) + Lost(side, k.lost, f)
  }

  lemma {:induction false} OweUpdate(side: Side, callers: seq<Caller>, i: nat, c: Caller, f: Field)
    requires i < |callers|
    ensures AllOwe(side, callers[i := c], f) + Owes(side, callers[i], f)
         == AllOwe(side, callers, f) + Owes(side, c, f)
  {
    if i > 0 {
      OweUpdate(side, callers[1..], i - 1, c, f);
      assert callers[i := c][1..] == callers[1..][i - 1 := c];
    } else {
      assert callers[0 := c][1..] == callers[1..];
    }
  }

  // ----- every CPU is somewhere sensible -----

  /** The CPU is past the point behind which its entry is known to exist. */
  predicate Sure(cpu: Cpu, roomy: bool) {
    Holding(cpu) || (roomy && cpu.pc == FindAgain)
  }

  predicate InPlace(c: Counters, caller: Caller, roomy: bool) {
    (caller.todo == [] <==> caller.cpu.pc == Idle) &&
    (caller.todo != [] && Sure(caller.cpu, roomy) ==> EntryAt(c, caller.todo[0]).Some?)
  }

  /** A CPU with an entry in its hands finds it in the map; if inserting never fails, so does one that has inserted. */
  ghost predicate KernelInv(k: Kernel, roomy: bool) {
    (forall i :: 0 <= i < |k.callers| ==> InPlace(k.counters, k.callers[i], roomy)) &&
    (roomy ==> k.lost == [])
  }

  /** The step finds its entry where it needs it, and never takes one away. */
  lemma StepFinds(entry: Option<Value>, cpu: Cpu, full: bool, roomy: bool)
    requires (Sure(cpu, roomy) ==> entry.Some?) && (roomy ==> !full)
    ensures
      var u := UpdateStep(entry, cpu, full);
      (entry.Some? ==> u.entry.Some?) && (Sure(u.cpus[0], roomy) ==> u.entry.Some?) && (roomy ==> u.lost == ZERO)
  {
  }

  lemma AfterKeepsInv(k: Kernel, i: nat, full: bool, roomy: bool)
    requires KernelInv(k, roomy) && i < |k.callers| && k.callers[i].todo != [] && (roomy ==> !full)
    ensures KernelInv(After(k, i, full), roomy)
  {
    var c, t := k.callers[i], After(k, i, full);
    var entry := EntryAt(k.counters, c.todo[0]);
    assert InPlace(k.counters, c, roomy);
    StepFinds(entry, c.cpu, full, roomy);
    forall j | 0 <= j < |t.callers|
      ensures InPlace(t.counters, t.callers[j], roomy)
    {
      assert InPlace(k.counters, k.callers[j], roomy);
    }
  }

  /** No move finds the map full. */
  predicate HasRoom(m: Move) {
    m.GoOn? ==> !m.full
  }

  lemma ActKeepsInv(sh: Shared, k: Kernel, m: Move, roomy: bool)
    requires KernelInv(k, roomy) && (roomy ==> HasRoom(m))
    ensures KernelInv(Act(sh, k, m), roomy)
  {
    if m.cpu < |k.callers| && m.GoOn? && k.callers[m.cpu].todo != [] {
      AfterKeepsInv(k, m.cpu, m.full, roomy);
    }
  }

  // ----- what a move changes -----

  lemma PutShiftsSums(c: Counters, t: Target, v: Value, uid: nat, f: Field)
    ensures BothSums(Put(c, t, v), uid, f) + If(Counts(TagZeroSide(uid), t), Base(EntryAt(c, t)).Get(f))
         == BothSums(c, uid, f) + If(Counts(TagZeroSide(uid), t), v.Get(f))
  {
    match t
    case OnA(key) => StoreSum(c.statsA, key, v, uid, f);
    case OnB(key) => StoreSum(c.statsB, key, v, uid, f);
    case OnApp(_) =>
  }

  lemma PutShiftsTags(c: Counters, t: Target, v: Value, zero: Target, f: Field)
    ensures TagTotal(Put(c, t, v), zero, f) + If(TagOf(zero, t), Base(EntryAt(c, t)).Get(f))
         == TagTotal(c, zero, f) + If(TagOf(zero, t), v.Get(f))
  {
    if zero.OnA? && t.OnA? {
      TaggedSum(c.statsA, t.key, v, zero.key, f);
    } else if zero.OnB? && t.OnB? {
      TaggedSum(c.statsB, t.key, v, zero.key, f);
    }
  }

  lemma PutShifts(side: Side, c: Counters, t: Target, v: Value, f: Field)
    ensures Total(side, Put(c, t, v), f) + If(Counts(side, t), Base(EntryAt(c, t)).Get(f))
         == Total(side, c, f) + If(Counts(side, t), v.Get(f))
  {
    match side
    case AppSide(_) =>
    case TagZeroSide(uid) => PutShiftsSums(c, t, v, uid, f);
    case EntrySide(_) =>
    case TagsSide(zero) => PutShiftsTags(c, t, v, zero, f);
  }

  /** One step: what it adds to the entry or gives up, the CPU owes no longer. */
  lemma StepPays(entry: Option<Value>, cpu: Cpu, full: bool, f: Field)
    ensures
      var u := UpdateStep(entry, cpu, full);
      u.added.Get(f) + u.lost.Get(f) + Due(u.cpus[0], f) == Due(cpu, f)
  {
    var s := State(entry, [cpu], ZERO, ZERO, ZERO);
    StepBalances(s, Step(0, full), f);
    assert ZERO.Get(f) == 0;
  }

  /** How often a step takes a field of the entry round its 64 bits. */
  function Carry(entry: Option<Value>, cpu: Cpu, full: bool, f: Field): nat {
    var u := UpdateStep(entry, cpu, full);
    var sum := Base(entry).Get(f) + u.added.Get(f);
    if Base(u.entry).Get(f) <= sum then (sum - Base(u.entry).Get(f)) / TWO_64 else 0
  }

  lemma WholeTurns(sum: nat, r: nat)
    requires r == sum || r == sum % TWO_64
    ensures r <= sum && r + Turns((sum - r) / TWO_64) == sum
  {
  }

  lemma StepReduces(entry: Option<Value>, cpu: Cpu, full: bool, f: Field)
    requires Holding(cpu) ==> entry.Some?
    ensures
      var u := UpdateStep(entry, cpu, full);
      var sum, r := Base(entry).Get(f) + u.added.Get(f), Base(u.entry).Get(f);
      r == sum || r == sum % TWO_64
  {
    PlusGets(ZERO, cpu.dir, cpu.len, f);
    if cpu.pc == AddPackets {
      PacketAdds(entry.value, cpu.dir, f);
    } else if cpu.pc == AddBytes {
      LengthAdds(entry.value, cpu.dir, cpu.len, f);
    }
  }

  /** The entry shows what is added to it, but for whole wraps. */
  lemma StepAdds(entry: Option<Value>, cpu: Cpu, full: bool, f: Field)
    requires Holding(cpu) ==> entry.Some?
    ensures
      var u := UpdateStep(entry, cpu, full);
      Base(u.entry).Get(f) + Turns(Carry(entry, cpu, full, f)) == Base(entry).Get(f) + u.added.Get(f)
  {
    var u := UpdateStep(entry, cpu, full);
    StepReduces(entry, cpu, full, f);
    WholeTurns(Base(entry).Get(f) + u.added.Get(f), Base(u.entry).Get(f));
  }

  lemma PacketAdds(v: Value, d: Direction, f: Field)
    ensures
      var sum, r := v.Get(f) + PacketPart(d, f), v.AddPacket(d).Get(f);
      r == sum || r == sum % TWO_64
  {
  }

  lemma LengthAdds(v: Value, d: Direction, len: nat, f: Field)
    ensures
      var sum, r := v.Get(f) + LengthPart(d, len, f), v.AddLength(d, len).Get(f);
      r == sum || r == sum % TWO_64
  {
  }

  /** A CPU that has finished an update owes the next ones in full. */
  lemma OnwardOwes(side: Side, todo: seq<Target>, cpu: Cpu, f: Field)
    requires todo != []
    ensures Owes(side, Onward(todo, cpu), f)
         == (if Counts(side, todo[0]) then Due(cpu, f) else 0) + Worth(side, todo[1..], cpu.dir, cpu.len, f)
  {
  }

  /** The wraps of a step, for the side it belongs to. */
  function WrapsAt(side: Side, k: Kernel, i: nat, full: bool, f: Field): nat
    requires i < |k.callers| && k.callers[i].todo != []
  {
    var t := k.callers[i].todo[0];
    If(Counts(side, t), Carry(EntryAt(k.counters, t), k.callers[i].cpu, full, f))
  }

  lemma TotalMoves(side: Side, k: Kernel, i: nat, full: bool, f: Field)
    requires i < |k.callers| && k.callers[i].todo != [] && InPlace(k.counters, k.callers[i], false)
    ensures
      var t := k.callers[i].todo[0];
      var u := UpdateStep(EntryAt(k.counters, t), k.callers[i].cpu, full);
      Total(side, After(k, i, full).counters, f) + Turns(WrapsAt(side, k, i, full, f))
      == Total(side, k.counters, f) + If(Counts(side, t), u.added.Get(f))
  {
    var t, cpu := k.callers[i].todo[0], k.callers[i].cpu;
    var entry := EntryAt(k.counters, t);
    var u := UpdateStep(entry, cpu, full);
    StepAdds(entry, cpu, full, f);
    if u.entry.Some? {
      PutAdds(side, k.counters, t, u.entry.value, u.added.Get(f), Carry(entry, cpu, full, f), f);
    } else {
      NothingAdded(entry, cpu, full, f);
    }
  }

  lemma PutAdds(side: Side, c: Counters, t: Target, v: Value, added: nat, wraps: nat, f: Field)
    requires v.Get(f) + Turns(wraps) == Base(EntryAt(c, t)).Get(f) + added
    ensures Total(side, Put(c, t, v), f) + Turns(If(Counts(side, t), wraps))
         == Total(side, c, f) + If(Counts(side, t), added)
  {
    PutShifts(side, c, t, v, f);
  }

  lemma NothingAdded(entry: Option<Value>, cpu: Cpu, full: bool, f: Field)
    requires UpdateStep(entry, cpu, full).entry.None? && (Holding(cpu) ==> entry.Some?)
    ensures UpdateStep(entry, cpu, full).added.Get(f) == 0 && Carry(entry, cpu, full, f) == 0
  {
  }

  /** A step of a CPU leaves the account of each side as it is, but for wraps. */
  lemma AfterSettles(side: Side, k: Kernel, i: nat, full: bool, f: Field)
    requires i < |k.callers| && k.callers[i].todo != [] && InPlace(k.counters, k.callers[i], false)
    ensures BooksOf(side, After(k, i, full), f) + Turns(WrapsAt(side, k, i, full, f)) == BooksOf(side, k, f)
  {
    TotalMoves(side, k, i, full, f);
    DebtsMove(side, k, i, full, f);
  }

  lemma DebtsMove(side: Side, k: Kernel, i: nat, full: bool, f: Field)
    requires i < |k.callers| && k.callers[i].todo != [] && InPlace(k.counters, k.callers[i], false)
    ensures
      var t := k.callers[i].todo[0];
      var u := UpdateStep(EntryAt(k.counters, t), k.callers[i].cpu, full);
      var here := Counts(side, t);
      AllOwe(side, k.callers, f)
      == AllOwe(side, After(k, i, full).callers, f) + If(here, u.added.Get(f)) + If(here, u.lost.Get(f)) &&
      Lost(side, After(k, i, full).lost, f) == Lost(side, k.lost, f) + If(here, u.lost.Get(f))
  {
    var c := k.callers[i];
    var entry := EntryAt(k.counters, c.todo[0]);
    var u := UpdateStep(entry, c.cpu, full);
    StepPays(entry, c.cpu, full, f);
    StepKeepsCall(entry, c.cpu, full);
    OnwardOwes(side, c.todo, u.cpus[0], f);
    OweUpdate(side, k.callers, i, Onward(c.todo, u.cpus[0]), f);
    LossAdds(side, k.lost, c.todo[0], u.lost, f);
  }

  lemma StepKeepsCall(entry: Option<Value>, cpu: Cpu, full: bool)
    ensures
      var next := UpdateStep(entry, cpu, full).cpus[0];
      next.dir == cpu.dir && next.len == cpu.len
  {
  }

  lemma LossAdds(side: Side, lost: seq<Loss>, t: Target, missing: Value, f: Field)
    ensures Lost(side, if missing == ZERO then lost else lost + [Loss(t, missing)], f)
         == Lost(side, lost, f) + If(Counts(side, t), missing.Get(f))
  {
    assert (lost + [Loss(t, missing)])[..|lost|] == lost;
  }

  lemma EnterSettles(side: Side, k: Kernel, i: nat, call: Call, f: Field)
    requires i < |k.callers| && k.callers[i].todo == []
    ensures BooksOf(side, Entered(k, i, call), f) + Brought(side, k.begun, f)
         == BooksOf(side, k, f) + Brought(side, Entered(k, i, call).begun, f)
  {
    OweUpdate(side, k.callers, i, Entered(k, i, call).callers[i], f);
    OneMoreCall(side, k.begun, call, f);
  }

  lemma OneMoreCall(side: Side, calls: seq<Call>, call: Call, f: Field)
    ensures Brought(side, calls + [call], f)
         == Brought(side, calls, f) + Worth(side, call.targets, call.dir, call.len, f)
  {
    assert (calls + [call])[..|calls|] == calls;
  }

  function MoveWraps(side: Side, k: Kernel, m: Move, f: Field): nat {
    if m.GoOn? && m.cpu < |k.callers| && k.callers[m.cpu].todo != [] then WrapsAt(side, k, m.cpu, m.full, f) else 0
  }

  /** How often a run takes the entries of a side round their 64 bits. */
  function Wraps(sh: Shared, side: Side, k: Kernel, moves: seq<Move>, f: Field): nat
    decreases |moves|
  {
    if |moves| == 0 then 0 else MoveWraps(side, k, moves[0], f) + Wraps(sh, side, Act(sh, k, moves[0]), moves[1..], f)
  }

  /** What calls bring is on the counters, still to come, given up, or wrapped away. */
  ghost predicate Settles(side: Side, k: Kernel, t: Kernel, wraps: nat, f: Field) {
    BooksOf(side, t, f) + Turns(wraps) + Brought(side, k.begun, f) == BooksOf(side, k, f) + Brought(side, t.begun, f)
  }

  lemma ActSettles(sh: Shared, side: Side, k: Kernel, m: Move, f: Field)
    requires KernelInv(k, false)
    ensures Settles(side, k, Act(sh, k, m), MoveWraps(side, k, m, f), f)
  {
    if m.cpu < |k.callers| {
      if m.Enter? {
        if k.callers[m.cpu].todo == [] {
          EnterSettles(side, k, m.cpu, Call(Targets(sh, m.charge), m.dir, m.len), f);
        }
      } else if k.callers[m.cpu].todo != [] {
        AfterSettles(side, k, m.cpu, m.full, f);
      }
    }
  }

  lemma SettlesTwice(side: Side, k: Kernel, t: Kernel, u: Kernel, wraps: nat, more: nat, f: Field)
    requires Settles(side, k, t, wraps, f) && Settles(side, t, u, more, f)
    ensures Settles(side, k, u, wraps + more, f)
  {
  }

  lemma {:induction false} RunSettles(sh: Shared, side: Side, k: Kernel, moves: seq<Move>, f: Field)
    requires KernelInv(k, false)
    ensures Settles(side, k, RunKernel(sh, k, moves), Wraps(sh, side, k, moves, f), f)
    decreases |moves|
  {
    if |moves| > 0 {
      var next, rest := Act(sh, k, moves[0]), moves[1..];
      ActKeepsInv(sh, k, moves[0], false);
      ActSettles(sh, side, k, moves[0], f);
      RunSettles(sh, side, next, rest, f);
      SettlesTwice(side, k, next, RunKernel(sh, next, rest), MoveWraps(side, k, moves[0], f),
                   Wraps(sh, side, next, rest, f), f);
    }
  }

  lemma {:induction false} RunKeepsKernelInv(sh: Shared, k: Kernel, moves: seq<Move>, roomy: bool)
    requires KernelInv(k, roomy) && (roomy ==> forall i :: 0 <= i < |moves| ==> HasRoom(moves[i]))
    ensures KernelInv(RunKernel(sh, k, moves), roomy)
    decreases |moves|
  {
    if |moves| > 0 {
      ActKeepsInv(sh, k, moves[0], roomy);
      RunKeepsKernelInv(sh, Act(sh, k, moves[0]), moves[1..], roomy);
    }
  }

  lemma {:induction false} RestingOweNothing(side: Side, callers: seq<Caller>, f: Field)
    requires forall i :: 0 <= i < |callers| ==> callers[i].todo == []
    ensures AllOwe(side, callers, f) == 0
  {
    if |callers| > 0 {
      RestingOweNothing(side, callers[1..], f);
    }
  }

  // ----- main results -----

  /** All CPUs have left the function. */
  predicate AtRest(k: Kernel) {
    forall i :: 0 <= i < |k.callers| ==> k.callers[i].todo == []
  }

  /**
   At every state of every interleaving and on each side: the counters, what the CPUs have still to
   add, what was given up and 2^64 for every wrap are what was there at first and what all calls bring.
   */
  lemma EachSideIsExact(sh: Shared, side: Side, n: nat, c: Counters, moves: seq<Move>, f: Field)
    ensures
      var k := RunKernel(sh, Resting(n, c), moves);
      BooksOf(side, k, f) + Turns(Wraps(sh, side, Resting(n, c), moves, f))
      == Total(side, c, f) + Brought(side, k.begun, f)
  {
    RestingOweNothing(side, Resting(n, c).callers, f);
    RunSettles(sh, side, Resting(n, c), moves, f);
  }

  /** As 64-bit counters they agree, however many wraps there were. */
  lemma EachSideIsAccounted(sh: Shared, side: Side, n: nat, c: Counters, moves: seq<Move>, f: Field)
    ensures
      var k := RunKernel(sh, Resting(n, c), moves);
      Same64(BooksOf(side, k, f), Total(side, c, f) + Brought(side, k.begun, f))
  {
    EachSideIsExact(sh, side, n, c, moves, f);
    LessTurns(BooksOf(side, RunKernel(sh, Resting(n, c), moves), f),
              Total(side, c, f) + Brought(side, RunKernel(sh, Resting(n, c), moves).begun, f),
              Wraps(sh, side, Resting(n, c), moves, f));
  }

  lemma LessTurns(x: nat, y: nat, wraps: nat)
    requires x + Turns(wraps) == y
    ensures Same64(x, y)
  {
    assert y == x + Turns(wraps);
    SameSym(y, x);
  }

  /** At rest nobody owes anything. */
  ghost predicate RestAccounted(side: Side, k: Kernel, c: Counters, f: Field) {
    Same64(Total(side, k.counters, f) + Lost(side, k.lost, f),
           Total(side, c, f) + Brought(side, k.begun, f))
  }

  lemma SideAtRest(sh: Shared, side: Side, n: nat, c: Counters, moves: seq<Move>, f: Field)
    requires AtRest(RunKernel(sh, Resting(n, c), moves))
    ensures RestAccounted(side, RunKernel(sh, Resting(n, c), moves), c, f)
  {
    EachSideIsAccounted(sh, side, n, c, moves, f);
    RestingOweNothing(side, RunKernel(sh, Resting(n, c), moves).callers, f);
  }

  lemma FourSums(a: nat, z: nat, lostA: nat, lostZ: nat, a0: nat, z0: nat, ba: nat, bz: nat)
    requires Same64(a + lostA, a0 + ba) && Same64(z + lostZ, z0 + bz) && Same64(a0, z0)
    ensures Same64(a, z) <==> Same64(ba + lostZ, bz + lostA)
  {
    var i :| a + lostA == a0 + ba + Turns(i);
    var j :| z + lostZ == z0 + bz + Turns(j);
    var h :| a0 == z0 + Turns(h);
    if Same64(a, z) {
      var g :| a == z + Turns(g);
      assert ba + lostZ == bz + lostA + Turns(g - i + j - h);
    }
    if Same64(ba + lostZ, bz + lostA) {
      var g :| ba + lostZ == bz + lostA + Turns(g);
      assert a == z + Turns(g + i - j + h);
    }
  }

  /** What each side was brought, and did not give up, is the same, modulo 2^64. */
  ghost predicate BroughtEvenly(k: Kernel, uid: nat, f: Field) {
    Same64(Brought(AppSide(uid), k.begun, f) + Lost(TagZeroSide(uid), k.lost, f),
           Brought(TagZeroSide(uid), k.begun, f) + Lost(AppSide(uid), k.lost, f))
  }

  /**
   However the calls interleave: once all CPUs are at rest, the books balance exactly if both sides
   were served alike.
   */
  lemma RestConservesIff(sh: Shared, n: nat, c: Counters, moves: seq<Move>, uid: nat, f: Field)
    requires Conserved(c, uid, f) && AtRest(RunKernel(sh, Resting(n, c), moves))
    ensures
      var k := RunKernel(sh, Resting(n, c), moves);
      Conserved(k.counters, uid, f) <==> BroughtEvenly(k, uid, f)
  {
    SideAtRest(sh, AppSide(uid), n, c, moves, f);
    SideAtRest(sh, TagZeroSide(uid), n, c, moves, f);
    AccountedConservesIff(RunKernel(sh, Resting(n, c), moves), c, uid, f);
  }

  lemma AccountedConservesIff(k: Kernel, c: Counters, uid: nat, f: Field)
    requires Conserved(c, uid, f) && RestAccounted(AppSide(uid), k, c, f) && RestAccounted(TagZeroSide(uid), k, c, f)
    ensures
      Conserved(k.counters, uid, f) <==> BroughtEvenly(k, uid, f)
  {
    FourSums(AppTotal(k.counters.app, uid, f), BothSums(k.counters, uid, f),
             Lost(AppSide(uid), k.lost, f), Lost(TagZeroSide(uid), k.lost, f),
             AppTotal(c.app, uid, f), BothSums(c, uid, f),
             Brought(AppSide(uid), k.begun, f), Brought(TagZeroSide(uid), k.begun, f));
  }

  /** The selector a call has read names one of the maps. */
  predicate NamesAMap(sh: Shared, m: Move) {
    m.Enter? ==> m.charge.selector == sh.selectA || m.charge.selector == sh.selectB
  }

  /** Such a call brings both sides the same: its packet, once. */
  lemma TargetsAreEven(sh: Shared, ch: Charge, d: Direction, len: nat, uid: nat, f: Field)
    requires ch.selector == sh.selectA || ch.selector == sh.selectB
    ensures Worth(AppSide(uid), Targets(sh, ch), d, len, f) == If(ch.key.uid == uid, Part(d, len, f))
    ensures Worth(TagZeroSide(uid), Targets(sh, ch), d, len, f) == If(ch.key.uid == uid, Part(d, len, f))
  {
    var ts := Targets(sh, ch);
    var short := ts[|ts| - 2..];
    WorthOfTwo(AppSide(uid), short, d, len, f);
    WorthOfTwo(TagZeroSide(uid), short, d, len, f);
    if ch.key.tag != 0 {
      assert ts[1..] == short;
    } else {
      assert ts == short;
    }
  }

  lemma WorthOfTwo(side: Side, ts: seq<Target>, d: Direction, len: nat, f: Field)
    requires |ts| == 2
    ensures Worth(side, ts, d, len, f)
         == If(Counts(side, ts[0]), Part(d, len, f)) + If(Counts(side, ts[1]), Part(d, len, f))
  {
    assert Worth(side, ts[1..][1..], d, len, f) == 0;
  }

  lemma ActBringsEvenly(sh: Shared, k: Kernel, m: Move, uid: nat, f: Field)
    requires NamesAMap(sh, m) && Brought(AppSide(uid), k.begun, f) == Brought(TagZeroSide(uid), k.begun, f)
    ensures
      var t := Act(sh, k, m);
      Brought(AppSide(uid), t.begun, f) == Brought(TagZeroSide(uid), t.begun, f)
  {
    if m.Enter? && m.cpu < |k.callers| && k.callers[m.cpu].todo == [] {
      TargetsAreEven(sh, m.charge, m.dir, m.len, uid, f);
      OneMoreCall(AppSide(uid), k.begun, Call(Targets(sh, m.charge), m.dir, m.len), f);
      OneMoreCall(TagZeroSide(uid), k.begun, Call(Targets(sh, m.charge), m.dir, m.len), f);
    }
  }

  lemma {:induction false} RunBringsEvenly(sh: Shared, k: Kernel, moves: seq<Move>, uid: nat, f: Field)
    requires Brought(AppSide(uid), k.begun, f) == Brought(TagZeroSide(uid), k.begun, f)
    requires forall i :: 0 <= i < |moves| ==> NamesAMap(sh, moves[i])
    ensures
      var t := RunKernel(sh, k, moves);
      Brought(AppSide(uid), t.begun, f) == Brought(TagZeroSide(uid), t.begun, f)
    decreases |moves|
  {
    if |moves| > 0 {
      assert NamesAMap(sh, moves[0]);
      ActBringsEvenly(sh, k, moves[0], uid, f);
      RunBringsEvenly(sh, Act(sh, k, moves[0]), moves[1..], uid, f);
    }
  }

  lemma SameSummand(x: nat, y: nat, z: nat)
    ensures Same64(x + y, x + z) <==> Same64(z, y)
  {
    if Same64(x + y, x + z) {
      var k :| x + y == x + z + Turns(k);
      assert z == y + Turns(-k);
    }
    if Same64(z, y) {
      var k :| z == y + Turns(k);
      assert x + y == x + z + Turns(-k);
    }
  }

  /** If every selector names a map, that is: exactly if both sides gave up the same. */
  lemma SelectedRestConservesIff(sh: Shared, n: nat, c: Counters, moves: seq<Move>, uid: nat, f: Field)
    requires Conserved(c, uid, f) && AtRest(RunKernel(sh, Resting(n, c), moves))
    requires forall i :: 0 <= i < |moves| ==> NamesAMap(sh, moves[i])
    ensures
      var k := RunKernel(sh, Resting(n, c), moves);
      Conserved(k.counters, uid, f) <==>
      Same64(Lost(AppSide(uid), k.lost, f), Lost(TagZeroSide(uid), k.lost, f))
  {
    var k := RunKernel(sh, Resting(n, c), moves);
    RestConservesIff(sh, n, c, moves, uid, f);
    RunBringsEvenly(sh, Resting(n, c), moves, uid, f);
    SameSummand(Brought(AppSide(uid), k.begun, f), Lost(TagZeroSide(uid), k.lost, f), Lost(AppSide(uid), k.lost, f));
  }

  lemma NothingLostConserves(k: Kernel, c: Counters, uid: nat, f: Field)
    requires RestAccounted(AppSide(uid), k, c, f) && RestAccounted(TagZeroSide(uid), k, c, f) && k.lost == []
    requires Conserved(c, uid, f) && Brought(AppSide(uid), k.begun, f) == Brought(TagZeroSide(uid), k.begun, f)
    ensures
      var brought := Brought(AppSide(uid), k.begun, f);
      Same64(AppTotal(k.counters.app, uid, f), AppTotal(c.app, uid, f) + brought) &&
      Same64(BothSums(k.counters, uid, f), BothSums(c, uid, f) + brought) &&
      Conserved(k.counters, uid, f)
  {
    BothMove(AppTotal(c.app, uid, f), BothSums(c, uid, f), AppTotal(k.counters.app, uid, f),
             BothSums(k.counters, uid, f), Brought(AppSide(uid), k.begun, f));
  }

  /**
   While the maps have room, any number of CPUs account for traffic as one would: once they are at rest, each
   side is what it was plus what all calls brought the app, and so the books that balanced balance again.
   */
  lemma InterleavedTrafficIsConserved(sh: Shared, n: nat, c: Counters, moves: seq<Move>, uid: nat, f: Field)
    requires Conserved(c, uid, f) && AtRest(RunKernel(sh, Resting(n, c), moves))
    requires forall i :: 0 <= i < |moves| ==> NamesAMap(sh, moves[i]) && HasRoom(moves[i])
    ensures
      var k := RunKernel(sh, Resting(n, c), moves);
      var brought := Brought(AppSide(uid), k.begun, f);
      Same64(AppTotal(k.counters.app, uid, f), AppTotal(c.app, uid, f) + brought) &&
      Same64(BothSums(k.counters, uid, f), BothSums(c, uid, f) + brought) &&
      Conserved(k.counters, uid, f)
  {
    var k := RunKernel(sh, Resting(n, c), moves);
    RunKeepsKernelInv(sh, Resting(n, c), moves, true);
    RunBringsEvenly(sh, Resting(n, c), moves, uid, f);
    SideAtRest(sh, AppSide(uid), n, c, moves, f);
    SideAtRest(sh, TagZeroSide(uid), n, c, moves, f);
    NothingLostConserves(k, c, uid, f);
  }

  // ----- one CPU alone -----

  function StoreAt(sh: Shared, c: Counters, t: Target, d: Direction, len: nat): Counters {
    match t
    case OnA(key) => c.(statsA := Store(c.statsA, sh.statsCapacity, key, d, len))
    case OnB(key) => c.(statsB := Store(c.statsB, sh.statsCapacity, key, d, len))
    case OnApp(uid) => c.(app := Store(c.app, sh.appCapacity, uid, d, len))
  }

  function StoreAll(sh: Shared, c: Counters, todo: seq<Target>, d: Direction, len: nat): Counters
    decreases |todo|
  {
    if |todo| == 0 then c else StoreAll(sh, StoreAt(sh, c, todo[0], d, len), todo[1..], d, len)
  }

  predicate IsFull(sh: Shared, c: Counters, t: Target) {
    match t
    case OnA(_) => |c.statsA| >= sh.statsCapacity
    case OnB(_) => |c.statsB| >= sh.statsCapacity
    case OnApp(_) => |c.app| >= sh.appCapacity
  }

  /** The steps of one update: an entry that can be inserted takes two more. */
  function UpdateMoves(sh: Shared, c: Counters, t: Target): seq<Move> {
    var go := GoOn(0, IsFull(sh, c, t));
    if EntryAt(c, t).Some? || IsFull(sh, c, t) then [go, go, go] else [go, go, go, go, go]
  }

  function AllMoves(sh: Shared, c: Counters, todo: seq<Target>, d: Direction, len: nat): seq<Move>
    decreases |todo|
  {
    if |todo| == 0 then []
    else UpdateMoves(sh, c, todo[0]) + AllMoves(sh, StoreAt(sh, c, todo[0], d, len), todo[1..], d, len)
  }

  lemma {:induction false} RunInTwo(sh: Shared, k: Kernel, a: seq<Move>, b: seq<Move>)
    ensures RunKernel(sh, k, a + b) == RunKernel(sh, RunKernel(sh, k, a), b)
    decreases |a|
  {
    if |a| == 0 {
      assert a + b == b;
    } else {
      assert (a + b)[1..] == a[1..] + b;
      RunInTwo(sh, Act(sh, k, a[0]), a[1..], b);
    }
  }

  lemma RunThree(sh: Shared, k: Kernel, m: Move)
    ensures RunKernel(sh, k, [m, m, m]) == Act(sh, Act(sh, Act(sh, k, m), m), m)
  {
    var k2 := Act(sh, Act(sh, k, m), m);
    assert RunKernel(sh, k2, [m]) == Act(sh, k2, m);
    assert [m, m][1..] == [m];
    assert [m, m, m][1..] == [m, m];
    assert RunKernel(sh, Act(sh, k, m), [m, m]) == Act(sh, k2, m);
  }

  lemma RunFive(sh: Shared, k: Kernel, m: Move)
    ensures RunKernel(sh, k, [m, m, m, m, m]) == Act(sh, Act(sh, Act(sh, Act(sh, Act(sh, k, m), m), m), m), m)
  {
    var k1 := Act(sh, k, m);
    assert [m, m, m, m][1..] == [m, m, m];
    assert [m, m, m, m, m][1..] == [m, m, m, m];
    RunThree(sh, Act(sh, k1, m), m);
    assert RunKernel(sh, k1, [m, m, m, m]) == RunKernel(sh, Act(sh, k1, m), [m, m, m]);
  }

  /** A kernel with one CPU. */
  predicate Alone(k: Kernel, c: Counters, todo: seq<Target>, cpu: Cpu) {
    k.counters == c && k.callers == [Caller(todo, cpu)]
  }

  lemma ActAlone(sh: Shared, k: Kernel, todo: seq<Target>, cpu: Cpu, full: bool)
    requires todo != [] && Alone(k, k.counters, todo, cpu)
    ensures
      var u := UpdateStep(EntryAt(k.counters, todo[0]), cpu, full);
      var next := Onward(todo, u.cpus[0]);
      Alone(Act(sh, k, GoOn(0, full)), if u.entry.Some? then Put(k.counters, todo[0], u.entry.value) else k.counters,
            next.todo, next.cpu)
  {
  }

  lemma PutTwice(c: Counters, t: Target, v: Value, w: Value)
    ensures EntryAt(Put(c, t, v), t) == Some(v) && Put(Put(c, t, v), t, w) == Put(c, t, w)
  {
    match t
    case OnA(key) => assert c.statsA[key := v][key := w] == c.statsA[key := w];
    case OnB(key) => assert c.statsB[key := v][key := w] == c.statsB[key := w];
    case OnApp(uid) => assert c.app[uid := v][uid := w] == c.app[uid := w];
  }

  lemma PutBack(c: Counters, t: Target)
    requires EntryAt(c, t).Some?
    ensures Put(c, t, EntryAt(c, t).value) == c
  {
    match t
    case OnA(key) => assert c.statsA[key := c.statsA[key]] == c.statsA;
    case OnB(key) => assert c.statsB[key := c.statsB[key]] == c.statsB;
    case OnApp(uid) => assert c.app[uid := c.app[uid]] == c.app;
  }

  /** The two additions. */
  lemma AddAlone(sh: Shared, k: Kernel, todo: seq<Target>, d: Direction, len: nat, v: Value, full: bool)
    requires todo != [] && Alone(k, k.counters, todo, Cpu(AddPackets, d, len))
    requires EntryAt(k.counters, todo[0]) == Some(v)
    ensures
      var go, next := GoOn(0, full), Onward(todo, Cpu(Idle, d, len));
      Alone(Act(sh, Act(sh, k, go), go), Put(k.counters, todo[0], v.AddPacket(d).AddLength(d, len)),
            next.todo, next.cpu)
  {
    ActAlone(sh, k, todo, Cpu(AddPackets, d, len), full);
    ActAlone(sh, Act(sh, k, GoOn(0, full)), todo, Cpu(AddBytes, d, len), full);
    PutTwice(k.counters, todo[0], v.AddPacket(d), v.AddPacket(d).AddLength(d, len));
  }

  lemma FindAlone(sh: Shared, k: Kernel, todo: seq<Target>, d: Direction, len: nat, full: bool)
    requires todo != [] && Alone(k, k.counters, todo, Cpu(Find, d, len)) && EntryAt(k.counters, todo[0]).Some?
    ensures Alone(Act(sh, k, GoOn(0, full)), k.counters, todo, Cpu(AddPackets, d, len))
  {
    ActAlone(sh, k, todo, Cpu(Find, d, len), full);
    PutBack(k.counters, todo[0]);
  }

  lemma InsertAlone(sh: Shared, k: Kernel, todo: seq<Target>, d: Direction, len: nat)
    requires todo != [] && Alone(k, k.counters, todo, Cpu(Find, d, len)) && EntryAt(k.counters, todo[0]).None?
    ensures
      var go := GoOn(0, false);
      Alone(Act(sh, Act(sh, Act(sh, k, go), go), go), Put(k.counters, todo[0], ZERO), todo, Cpu(AddPackets, d, len))
  {
    var go := GoOn(0, false);
    ActAlone(sh, k, todo, Cpu(Find, d, len), false);
    ActAlone(sh, Act(sh, k, go), todo, Cpu(Insert, d, len), false);
    PutTwice(k.counters, todo[0], ZERO, ZERO);
    ActAlone(sh, Act(sh, Act(sh, k, go), go), todo, Cpu(FindAgain, d, len), false);
  }

  lemma GiveUpAlone(sh: Shared, k: Kernel, todo: seq<Target>, d: Direction, len: nat)
    requires todo != [] && Alone(k, k.counters, todo, Cpu(Find, d, len)) && EntryAt(k.counters, todo[0]).None?
    ensures
      var go, next := GoOn(0, true), Onward(todo, Cpu(Idle, d, len));
      Alone(Act(sh, Act(sh, Act(sh, k, go), go), go), k.counters, next.todo, next.cpu)
  {
    var go := GoOn(0, true);
    ActAlone(sh, k, todo, Cpu(Find, d, len), true);
    ActAlone(sh, Act(sh, k, go), todo, Cpu(Insert, d, len), true);
    ActAlone(sh, Act(sh, Act(sh, k, go), go), todo, Cpu(FindAgain, d, len), true);
  }

  lemma StoreAtIsUpdate(sh: Shared, c: Counters, t: Target, d: Direction, len: nat)
    ensures
      var updated := UpdateEntry(EntryAt(c, t), IsFull(sh, c, t), d, len);
      StoreAt(sh, c, t, d, len) == if updated.Some? then Put(c, t, updated.value) else c
  {
  }

  lemma UpdateAlone(sh: Shared, k: Kernel, todo: seq<Target>, d: Direction, len: nat)
    requires todo != [] && Alone(k, k.counters, todo, Cpu(Find, d, len))
    ensures
      var next := Onward(todo, Cpu(Idle, d, len));
      Alone(RunKernel(sh, k, UpdateMoves(sh, k.counters, todo[0])), StoreAt(sh, k.counters, todo[0], d, len),
            next.todo, next.cpu)
  {
    var c, t, full := k.counters, todo[0], IsFull(sh, k.counters, todo[0]);
    var go := GoOn(0, full);
    StoreAtIsUpdate(sh, c, t, d, len);
    if EntryAt(c, t).Some? {
      RunThree(sh, k, go);
      FindAlone(sh, k, todo, d, len, full);
      AddAlone(sh, Act(sh, k, go), todo, d, len, EntryAt(c, t).value, full);
    } else if full {
      RunThree(sh, k, go);
      GiveUpAlone(sh, k, todo, d, len);
    } else {
      RunFive(sh, k, go);
      InsertAlone(sh, k, todo, d, len);
      PutTwice(c, t, ZERO, ZERO.AddPacket(d).AddLength(d, len));
      AddAlone(sh, Act(sh, Act(sh, Act(sh, k, go), go), go), todo, d, len, ZERO, full);
    }
  }

  lemma {:induction false} UpdatesAlone(sh: Shared, k: Kernel, todo: seq<Target>, d: Direction, len: nat)
    requires Alone(k, k.counters, todo, Cpu(if todo == [] then Idle else Find, d, len))
    ensures
      Alone(RunKernel(sh, k, AllMoves(sh, k.counters, todo, d, len)), StoreAll(sh, k.counters, todo, d, len), [],
            Cpu(Idle, d, len))
    decreases |todo|
  {
    if |todo| > 0 {
      var c := StoreAt(sh, k.counters, todo[0], d, len);
      var front := UpdateMoves(sh, k.counters, todo[0]);
      UpdateAlone(sh, k, todo, d, len);
      UpdatesAlone(sh, RunKernel(sh, k, front), todo[1..], d, len);
      RunInTwo(sh, k, front, AllMoves(sh, c, todo[1..], d, len));
    }
  }

  lemma {:induction false} StoreInTwo(sh: Shared, c: Counters, a: seq<Target>, b: seq<Target>, d: Direction, len: nat)
    ensures StoreAll(sh, c, a + b, d, len) == StoreAll(sh, StoreAll(sh, c, a, d, len), b, d, len)
    decreases |a|
  {
    if |a| == 0 {
      assert a + b == b;
    } else {
      assert (a + b)[1..] == a[1..] + b;
      StoreInTwo(sh, StoreAt(sh, c, a[0], d, len), a[1..], b, d, len);
    }
  }

  lemma SelectedIsStored(sh: Shared, c: Counters, selector: bv8, key: StatsKey, d: Direction, len: nat)
    ensures StoreAll(sh, c, OnSelected(sh, selector, key), d, len) == StoreSelected(sh, c, selector, key, d, len)
  {
    var ts := OnSelected(sh, selector, key);
    if ts != [] {
      assert StoreAll(sh, StoreAt(sh, c, ts[0], d, len), ts[1..], d, len) == StoreAt(sh, c, ts[0], d, len);
    }
  }

  /** The updates of a call, one after the other, are its charge. */
  lemma TargetsAreCharge(sh: Shared, c: Counters, ch: Charge, d: Direction, len: nat)
    ensures StoreAll(sh, c, Targets(sh, ch), d, len) == ApplyCharge(sh, c, ch, d, len)
  {
    var tagged := if ch.key.tag != 0 then OnSelected(sh, ch.selector, ch.key) else [];
    var plain := OnSelected(sh, ch.selector, ch.key.(tag := 0));
    var app := [OnApp(ch.key.uid)];
    var c1 := AfterTagged(sh, c, ch, d, len);
    StoreInTwo(sh, c, tagged + plain, app, d, len);
    StoreInTwo(sh, c, tagged, plain, d, len);
    SelectedIsStored(sh, c, ch.selector, ch.key, d, len);
    SelectedIsStored(sh, c1, ch.selector, ch.key.(tag := 0), d, len);
    var c2 := StoreAll(sh, c, tagged + plain, d, len);
    assert StoreAll(sh, c2, app, d, len) == StoreAll(sh, StoreAt(sh, c2, app[0], d, len), app[1..], d, len);
  }

  /** A call that runs with no other in between is the charge of one packet, however full the maps are. */
  lemma CallAlone(sh: Shared, c: Counters, ch: Charge, d: Direction, len: nat)
    ensures
      var k := RunKernel(sh, Resting(1, c), [Enter(0, ch, d, len)] + AllMoves(sh, c, Targets(sh, ch), d, len));
      AtRest(k) && k.counters == ApplyCharge(sh, c, ch, d, len)
  {
    var enter := Enter(0, ch, d, len);
    RunInTwo(sh, Resting(1, c), [enter], AllMoves(sh, c, Targets(sh, ch), d, len));
    assert RunKernel(sh, Resting(1, c), [enter]) == Act(sh, Resting(1, c), enter);
    UpdatesAlone(sh, Act(sh, Resting(1, c), enter), Targets(sh, ch), d, len);
    TargetsAreCharge(sh, c, ch, d, len);
  }
}
