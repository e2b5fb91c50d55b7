/**
 bpf_update_stats as many CPUs run it at once on one key: look the entry up, insert a
 zero entry if there is none, look it up again, then two atomic additions.
 */
module NetdUpdate {
  import opened Wrappers
  import opened Bytes

  datatype Direction = Egress | Ingress

  /** The four counters of struct stats_value. */
  datatype Field = RxPackets | RxBytes | TxPackets | TxBytes

  /** Counters as they are stored, below 2^64, or exact totals. */
  datatype Value = Value(rxPackets: nat, rxBytes: nat, txPackets: nat, txBytes: nat) {
    function Get(f: Field): nat {
      match f
      case RxPackets => rxPackets
      case RxBytes => rxBytes
      case TxPackets => txPackets
      case TxBytes => txBytes
    }

    predicate Is64Bit() {
      rxPackets < TWO_64 && rxBytes < TWO_64 && txPackets < TWO_64 && txBytes < TWO_64
    }

    /** Exact additions. */
    function PlusPacket(d: Direction): Value {
      if d.Egress? then this.(txPackets := txPackets + 1) else this.(rxPackets := rxPackets + 1)
    }

    function PlusLength(d: Direction, len: nat): Value {
      if d.Egress? then this.(txBytes := txBytes + len) else this.(rxBytes := rxBytes + len)
    }

    /** The first atomic addition. */
    function AddPacket(d: Direction): Value {
      if d.Egress? then this.(txPackets := (txPackets + 1) % TWO_64)
      else this.(rxPackets := (rxPackets + 1) % TWO_64)
    }

    /** The second one. */
    function AddLength(d: Direction, len: nat): Value {
      if d.Egress? then this.(txBytes := (txBytes + len) % TWO_64)
      else this.(rxBytes := (rxBytes + len) % TWO_64)
    }
  }

  const ZERO := Value(0, 0, 0, 0)

  /** What a packet adds to a field: one to its packet counter, its length to its byte counter. */
  function PacketPart(d: Direction, f: Field): nat {
    if (d.Egress? && f.TxPackets?) || (d.Ingress? && f.RxPackets?) then 1 else 0
  }

  function LengthPart(d: Direction, len: nat, f: Field): nat {
    if (d.Egress? && f.TxBytes?) || (d.Ingress? && f.RxBytes?) then len else 0
  }

  /** Where a CPU is in the function. */
  datatype Pc = Idle | Find | Insert | FindAgain | AddPackets | AddBytes

  datatype Cpu = Cpu(pc: Pc, dir: Direction, len: nat)

  /**
   The map entry for the key, the CPUs, and the books: what the calls begun so far bring,
   what has been added, and what was given up because the entry could not be inserted.
   */
  datatype State = State(entry: Option<Value>, cpus: seq<Cpu>, begun: Value, added: Value, lost: Value)

  /** One CPU calls the function, or takes its next step; `full` says that the map has no room. */
  datatype Action =
    | Begin(cpu: nat, dir: Direction, len: nat)
    | Step(cpu: nat, full: bool)

  function SetPc(s: State, i: nat, pc: Pc): State
    requires i < |s.cpus|
  {
    s.(cpus := s.cpus[i := s.cpus[i].(pc := pc)])
  }

  /** An action of a CPU that does not exist, or cannot take it, changes nothing. */
  function Apply(s: State, a: Action): (t: State)
    ensures |t.cpus| == |s.cpus|
  {
    if a.cpu >= |s.cpus| then s
    else
      var c := s.cpus[a.cpu];
      match a
      case Begin(i, dir, len) =>
        if c.pc != Idle then s
        else s.(cpus := s.cpus[i := Cpu(Find, dir, len)], begun := s.begun.PlusPacket(dir).PlusLength(dir, len))
      case Step(i, full) =>
        match c.pc
        case Idle => s
        case Find => SetPc(s, i, if s.entry.Some? then AddPackets else Insert)
        case Insert =>
          // BPF_NOEXIST: an entry that is already there stays as it is
          SetPc(s.(entry := if s.entry.None? && !full then Some(ZERO) else s.entry), i, FindAgain)
        case FindAgain =>
          if s.entry.Some? then SetPc(s, i, AddPackets)
          else SetPc(s.(lost := s.lost.PlusPacket(c.dir).PlusLength(c.dir, c.len)), i, Idle)
        case AddPackets =>
          SetPc(s.(entry := if s.entry.Some? then Some(s.entry.value.AddPacket(c.dir)) else None,
                   added := s.added.PlusPacket(c.dir)), i, AddBytes)
        case AddBytes =>
          SetPc(s.(entry := if s.entry.Some? then Some(s.entry.value.AddLength(c.dir, c.len)) else None,
                   added := s.added.PlusLength(c.dir, c.len)), i, Idle)
  }

  function Run(s: State, actions: seq<Action>): (t: State)
    ensures |t.cpus| == |s.cpus|
    decreases |actions|
  {
    if |actions| == 0 then s else Run(Apply(s, actions[0]), actions[1..])
  }

  /** `n` idle CPUs, and an entry as earlier calls may have left it. */
  function Start(n: nat, entry: Option<Value>): State {
    State(entry, seq(n, _ => Cpu(Idle, Egress, 0)), ZERO, ZERO, ZERO)
  }

  // ----- what the CPUs still owe -----

  function Due(c: Cpu, f: Field): nat {
    if c.pc == Idle then 0
    else if c.pc == AddBytes then LengthPart(c.dir, c.len, f)
    else PacketPart(c.dir, f) + LengthPart(c.dir, c.len, f)
  }

  function AllDue(cpus: seq<Cpu>, f: Field): nat {
    if |cpus| == 0 then 0 else Due(cpus[0], f) + AllDue(cpus[1..], f)
  }

  /** Changing one CPU changes the sum by the difference. */
  lemma {:induction false} DueUpdate(cpus: seq<Cpu>, i: nat, c: Cpu, f: Field)
    requires i < |cpus|
    ensures AllDue(cpus[i := c], f) + Due(cpus[i], f) == AllDue(cpus, f) + Due(c, f)
  {
    if i > 0 {
      DueUpdate(cpus[1..], i - 1, c, f);
      assert cpus[i := c][1..] == cpus[1..][i - 1 := c];
    } else {
      assert cpus[0 := c][1..] == cpus[1..];
    }
  }

  lemma {:induction false} IdleOwesNothing(cpus: seq<Cpu>, f: Field)
    requires forall i :: 0 <= i < |cpus| ==> cpus[i].pc == Idle
    ensures AllDue(cpus, f) == 0
  {
    if |cpus| > 0 {
      IdleOwesNothing(cpus[1..], f);
    }
  }

  // ----- invariant -----

  function Base(first: Option<Value>): Value {
    if first.Some? then first.value else ZERO
  }

  /** The CPU has passed the point behind which the entry is known to exist. */
  predicate Holding(c: Cpu) {
    c.pc == AddPackets || c.pc == AddBytes
  }

  /** An entry is never lost, and nobody has added anything without one. */
  ghost predicate EntryInv(s: State, first: Option<Value>) {
    (first.Some? ==> s.entry.Some?) &&
    (s.entry.None? ==> s.added == ZERO && forall i :: 0 <= i < |s.cpus| ==> !Holding(s.cpus[i]))
  }

  /** The entry shows exactly what has been added to it. */
  ghost predicate ValueInv(s: State, first: Option<Value>, f: Field) {
    s.entry.Some? ==>
      s.entry.value.Get(f) == (Base(first).Get(f) + s.added.Get(f)) % TWO_64
  }

  /** Every call is accounted for. */
  ghost predicate BooksInv(s: State, f: Field) {
    s.begun.Get(f) == s.added.Get(f) + s.lost.Get(f) + AllDue(s.cpus, f)
  }

  lemma ModAdds(x: nat, y: nat)
    ensures (x % TWO_64 + y) % TWO_64 == (x + y) % TWO_64
  {
  }

  lemma ApplyKeepsEntry(s: State, a: Action, first: Option<Value>)
    requires EntryInv(s, first)
    ensures EntryInv(Apply(s, a), first)
  {
  }

  lemma PlusGets(v: Value, d: Direction, len: nat, f: Field)
    ensures v.PlusPacket(d).Get(f) == v.Get(f) + PacketPart(d, f)
    ensures v.PlusLength(d, len).Get(f) == v.Get(f) + LengthPart(d, len, f)
  {
  }

  /** What a step changes in the books, it changes in what its CPU owes. */
  lemma StepBalances(s: State, a: Action, f: Field)
    requires a.cpu < |s.cpus|
    ensures
      var t := Apply(s, a);
      t.begun.Get(f) - s.begun.Get(f)
      == (t.added.Get(f) - s.added.Get(f)) + (t.lost.Get(f) - s.lost.Get(f)) +
        Due(t.cpus[a.cpu], f) - Due(s.cpus[a.cpu], f)
  {
    var c := s.cpus[a.cpu];
    PlusGets(s.added, c.dir, c.len, f);
    PlusGets(s.lost, c.dir, c.len, f);
    PlusGets(s.lost.PlusPacket(c.dir), c.dir, c.len, f);
    if a.Begin? {
      PlusGets(s.begun, a.dir, a.len, f);
      PlusGets(s.begun.PlusPacket(a.dir), a.dir, a.len, f);
    }
  }

  lemma OthersUntouched(s: State, a: Action)
    requires a.cpu < |s.cpus|
    ensures Apply(s, a).cpus == s.cpus[a.cpu := Apply(s, a).cpus[a.cpu]]
  {
  }

  lemma ApplyKeepsBooks(s: State, a: Action, f: Field)
    requires BooksInv(s, f)
    ensures BooksInv(Apply(s, a), f)
  {
    if a.cpu < |s.cpus| {
      StepBalances(s, a, f);
      OthersUntouched(s, a);
      DueUpdate(s.cpus, a.cpu, Apply(s, a).cpus[a.cpu], f);
    }
  }

  lemma AddsPacket(v: Value, d: Direction, x: nat, f: Field)
    requires v.Get(f) == x % TWO_64
    ensures v.AddPacket(d).Get(f) == (x + PacketPart(d, f)) % TWO_64
  {
    ModAdds(x, PacketPart(d, f));
  }

  lemma AddsLength(v: Value, d: Direction, len: nat, x: nat, f: Field)
    requires v.Get(f) == x % TWO_64
    ensures v.AddLength(d, len).Get(f) == (x + LengthPart(d, len, f)) % TWO_64
  {
    ModAdds(x, LengthPart(d, len, f));
  }

  lemma ApplyKeepsValue(s: State, a: Action, first: Option<Value>, f: Field)
    requires EntryInv(s, first) && ValueInv(s, first, f)
    ensures ValueInv(Apply(s, a), first, f)
  {
    if a.cpu < |s.cpus| && a.Step? && Holding(s.cpus[a.cpu]) {
      var c := s.cpus[a.cpu];
      var x := Base(first).Get(f) + s.added.Get(f);
      if c.pc == AddPackets {
        AddsPacket(s.entry.value, c.dir, x, f);
      } else {
        AddsLength(s.entry.value, c.dir, c.len, x, f);
      }
    }
  }

  lemma {:induction false} RunKeepsInv(s: State, actions: seq<Action>, first: Option<Value>, f: Field)
    requires EntryInv(s, first) && ValueInv(s, first, f) && BooksInv(s, f)
    ensures
      var t := Run(s, actions);
      EntryInv(t, first) && ValueInv(t, first, f) && BooksInv(t, f)
    decreases |actions|
  {
    if |actions| > 0 {
      ApplyKeepsEntry(s, actions[0], first);
      ApplyKeepsValue(s, actions[0], first, f);
      ApplyKeepsBooks(s, actions[0], f);
      RunKeepsInv(Apply(s, actions[0]), actions[1..], first, f);
    }
  }

  predicate Bounded(first: Option<Value>) {
    first.Some? ==> first.value.Is64Bit()
  }

  lemma StartHasInv(n: nat, first: Option<Value>, f: Field)
    requires Bounded(first)
    ensures
      var s := Start(n, first);
      EntryInv(s, first) && ValueInv(s, first, f) && BooksInv(s, f)
  {
    IdleOwesNothing(Start(n, first).cpus, f);
  }

  // ----- main results -----

  /** At every state of every interleaving the entry is its first value plus all completed additions, modulo 2^64. */
  lemma EntryShowsWhatWasAdded(n: nat, first: Option<Value>, actions: seq<Action>, f: Field)
    requires Bounded(first)
    ensures
      var s := Run(Start(n, first), actions);
      if s.entry.Some? then
        s.entry.value.Get(f) == (Base(first).Get(f) + s.added.Get(f)) % TWO_64
      else s.added == ZERO
  {
    StartHasInv(n, first, f);
    RunKeepsInv(Start(n, first), actions, first, f);
  }

  /** No step resets or removes an entry: it stays, but for the addition of the CPU that takes the step. */
  lemma InsertRaceNeverResets(s: State, a: Action)
    requires s.entry.Some?
    ensures
      var t := Apply(s, a);
      t.entry.Some? &&
      (t.entry == s.entry ||
       (a.cpu < |s.cpus| && s.cpus[a.cpu].pc == AddPackets &&
         t.entry.value == s.entry.value.AddPacket(s.cpus[a.cpu].dir)) ||
       (a.cpu < |s.cpus| && s.cpus[a.cpu].pc == AddBytes &&
          t.entry.value == s.entry.value.AddLength(s.cpus[a.cpu].dir, s.cpus[a.cpu].len)))
  {
  }

  predicate Roomy(a: Action) {
    a.Step? ==> !a.full
  }

  /** While the map has room, a CPU that has tried to insert finds an entry. */
  ghost predicate InsertedIsFound(s: State) {
    s.lost == ZERO && (s.entry.None? ==> forall i :: 0 <= i < |s.cpus| ==> s.cpus[i].pc != FindAgain)
  }

  lemma {:induction false} NothingIsGivenUp(s: State, actions: seq<Action>)
    requires InsertedIsFound(s) && forall k :: 0 <= k < |actions| ==> Roomy(actions[k])
    ensures InsertedIsFound(Run(s, actions))
    decreases |actions|
  {
    if |actions| > 0 {
      assert Roomy(actions[0]);
      NothingIsGivenUp(Apply(s, actions[0]), actions[1..]);
    }
  }

  /** All CPUs have left the function. */
  predicate Quiet(s: State) {
    forall i :: 0 <= i < |s.cpus| ==> s.cpus[i].pc == Idle
  }

  lemma QuietTotals(s: State, first: Option<Value>, f: Field)
    requires EntryInv(s, first) && ValueInv(s, first, f) && BooksInv(s, f) && s.lost == ZERO && Quiet(s)
    ensures Base(s.entry).Get(f) == (Base(first).Get(f) + s.begun.Get(f)) % TWO_64
  {
    IdleOwesNothing(s.cpus, f);
  }

  /**
   While the map has room no update is lost: once all CPUs are done, every field has
   grown by exactly what all calls brought, however they interleaved.
   */
  lemma {:induction false} NoUpdateIsLost(n: nat, first: Option<Value>, actions: seq<Action>, f: Field)
    requires Bounded(first) && forall k :: 0 <= k < |actions| ==> Roomy(actions[k])
    requires Quiet(Run(Start(n, first), actions))
    ensures
      var s := Run(Start(n, first), actions);
      Base(s.entry).Get(f) == (Base(first).Get(f) + s.begun.Get(f)) % TWO_64
  {
    StartHasInv(n, first, f);
    RunKeepsInv(Start(n, first), actions, first, f);
    NothingIsGivenUp(Start(n, first), actions);
    QuietTotals(Run(Start(n, first), actions), first, f);
  }

  // ----- one CPU alone -----

  /** What a call does to the entry when nobody interferes. */
  function UpdateEntry(entry: Option<Value>, full: bool, d: Direction, len: nat): Option<Value> {
    if entry.None? && full then None
    else Some(Base(entry).AddPacket(d).AddLength(d, len))
  }

  /** A call that runs undisturbed does just that. */
  lemma SoloCall(entry: Option<Value>, full: bool, d: Direction, len: nat)
    ensures
      var step := Step(0, full);
      var s := Run(Start(1, entry), [Begin(0, d, len), step, step, step, step, step]);
      s.entry == UpdateEntry(entry, full, d, len) && s.cpus[0].pc == Idle
  {
    var step := Step(0, full);
    var s1 := Apply(Start(1, entry), Begin(0, d, len));
    var s3 := Apply(Apply(s1, step), step);
    var s6 := Apply(Apply(Apply(s3, step), step), step);
    SoloSteps(s1, step);
    assert [Begin(0, d, len), step, step, step, step, step][1..] == [step, step, step, step, step];
  }

  lemma SoloSteps(s: State, a: Action)
    ensures Run(s, [a, a, a, a, a]) == Apply(Apply(Apply(Apply(Apply(s, a), a), a), a), a)
  {
    var s1 := Apply(s, a);
    var s2 := Apply(s1, a);
    var s3 := Apply(s2, a);
    var s4 := Apply(s3, a);
    assert Run(s4, [a]) == Apply(s4, a);
    assert [a, a][1..] == [a];
    assert Run(s3, [a, a]) == Apply(s4, a);
    assert [a, a, a][1..] == [a, a];
    assert Run(s2, [a, a, a]) == Apply(s4, a);
    assert [a, a, a, a][1..] == [a, a, a];
    assert Run(s1, [a, a, a, a]) == Apply(s4, a);
    assert [a, a, a, a, a][1..] == [a, a, a, a];
  }
}
