/**
 The part of the eBPF instruction set that linking has to respect: program-local
 calls (section 4.3.2 of RFC 9669), 64-bit immediate loads and map loads (section
 5.4 of RFC 9669), jumps and exit.  Everything else an instruction does to
 registers and memory is a parameter of the semantics.
 */
module BpfIsa {
  import opened Wrappers
  import opened Bytes

  const BPF_LD_IMM_DW := 0x18  // BPF_LD | BPF_IMM | BPF_DW
  const BPF_JMP_JA := 0x05     // BPF_JMP | BPF_JA
  const BPF_JMP_CALL := 0x85   // BPF_JMP | BPF_CALL
  const BPF_JMP_EXIT := 0x95   // BPF_JMP | BPF_EXIT
  const BPF_PSEUDO_CALL := 1
  const BPF_PSEUDO_MAP_FD := 1

  /** struct bpf_insn. */
  datatype Insn = Insn(code: nat, dst: nat, src: nat, off: int, imm: int)

  const TWO_31 := 0x8000_0000

  /** Storing a wide value in the signed 32-bit field `imm`. */
  function ToS32(x: int): (r: int)
    ensures -TWO_31 <= r < TWO_31
    ensures -TWO_31 <= x < TWO_31 ==> r == x
  {
    (x + TWO_31) % TWO_32 - TWO_31
  }

  predicate IsPseudoCall(insn: Insn) {
    insn.code == BPF_JMP_CALL && insn.src == BPF_PSEUDO_CALL
  }

  predicate IsCondJump(insn: Insn) {
    insn.code % 8 == 5 && insn.code != BPF_JMP_JA && insn.code != BPF_JMP_CALL && insn.code != BPF_JMP_EXIT
  }

  /**
   What the instructions do to data, for any representation D of registers,
   stack and memory and any representation F of what a call saves.
   */
  datatype Sem<!D, !F> = Sem(
    exec: (Insn, D) -> D,             // an instruction that only touches data, helper calls included
    taken: (Insn, D) -> bool,         // whether a conditional jump is taken
    loadImm: (nat, int, int, D) -> D, // register, low word, high word
    loadMap: (nat, int, D) -> D,      // register, map descriptor
    save: D -> F,                     // what a call saves
    enter: D -> D,                    // the callee's initial data
    leave: (F, D) -> D                // back in the caller
  )

  /** Where control goes after one instruction, relative to that instruction. */
  datatype Effect<D> =
    | Goto(delta: int, data: D)
    | Call(imm: int)
    | Return
    | Trap

  /**
   The effect of the instruction `insn`.  `second` is the instruction after it, if
   there is one: a 64-bit load takes its high word from there, and the opcode of
   that word must be zero.
   */
  function Decode<D, F>(sem: Sem<D, F>, insn: Insn, second: Option<Insn>, d: D): Effect<D>
  {
    if insn.code == BPF_JMP_EXIT then Return
    else if IsPseudoCall(insn) then Call(insn.imm)
    else if insn.code == BPF_JMP_JA then Goto(insn.off + 1, d)
    else if insn.code == BPF_LD_IMM_DW then
      if second.None? || second.value.code != 0 then Trap
      else if insn.src == BPF_PSEUDO_MAP_FD then Goto(2, sem.loadMap(insn.dst, insn.imm, d))
      else Goto(2, sem.loadImm(insn.dst, insn.imm, second.value.imm, d))
    else if IsCondJump(insn) then
      Goto(if sem.taken(insn, d) then insn.off + 1 else 1, d)
    else Goto(1, sem.exec(insn, d))
  }

  function At(insns: seq<Insn>, i: int): Option<Insn> {
    if 0 <= i < |insns| then Some(insns[i]) else None
  }

  /** What one step, or a run, ends in. */
  datatype Outcome<S, D> =
    | Running(state: S)
    | Exited(data: D)
    | Faulted

  // ----- one flat instruction array: what the kernel runs -----

  datatype FlatState<D, F> = FlatState(pc: int, stack: seq<(int, F)>, data: D)

  /** Moving to a place outside the array is a fault. */
  function FlatMove<D, F>(insns: seq<Insn>, pc: int, stack: seq<(int, F)>, d: D): Outcome<FlatState<D, F>, D> {
    if 0 <= pc < |insns| then Running(FlatState(pc, stack, d)) else Faulted
  }

  function FlatApply<D, F>(sem: Sem<D, F>, insns: seq<Insn>, s: FlatState<D, F>,
                           e: Effect<D>): Outcome<FlatState<D, F>, D>
  {
    match e
    case Goto(delta, d) => FlatMove(insns, s.pc + delta, s.stack, d)
    case Call(imm) =>
      FlatMove(insns, s.pc + 1 + imm, s.stack + [(s.pc + 1, sem.save(s.data))], sem.enter(s.data))
    case Return =>
      if |s.stack| == 0 then Exited(s.data)
      else
        var (ret, frame) := s.stack[|s.stack| - 1];
        FlatMove(insns, ret, s.stack[..|s.stack| - 1], sem.leave(frame, s.data))
    case Trap => Faulted
  }

  function FlatStep<D, F>(sem: Sem<D, F>, insns: seq<Insn>, s: FlatState<D, F>): Outcome<FlatState<D, F>, D>
  {
    if !(0 <= s.pc < |insns|) then Faulted
    else FlatApply(sem, insns, s, Decode(sem, insns[s.pc], At(insns, s.pc + 1), s.data))
  }

  function FlatStepper<D, F>(sem: Sem<D, F>, insns: seq<Insn>): FlatState<D, F> -> Outcome<FlatState<D, F>, D> {
    (s: FlatState<D, F>) => FlatStep(sem, insns, s)
  }

  function FlatRun<D, F>(sem: Sem<D, F>, insns: seq<Insn>, o: Outcome<FlatState<D, F>, D>,
                         n: nat): Outcome<FlatState<D, F>, D>
  {
    Iterate(FlatStepper(sem, insns), o, n)
  }

  // ----- machines in general -----

  /** Up to `n` steps of any machine. */
  function Iterate<S, D>(step: S -> Outcome<S, D>, o: Outcome<S, D>, n: nat): Outcome<S, D>
    decreases n
  {
    if n == 0 || !o.Running? then o else Iterate(step, step(o.state), n - 1)
  }

  /** From `s`, if it is good, a step does not fault and leads to good states only. */
  ghost predicate Safe<S, D>(step: S -> Outcome<S, D>, good: S -> bool, s: S) {
    good(s) ==> step(s) != Faulted && (step(s).Running? ==> good(step(s).state))
  }

  /** A machine that cannot fault from a good state, and stays in good states, never faults. */
  lemma {:induction false} NeverFaults<S, D>(step: S -> Outcome<S, D>, good: S -> bool, o: Outcome<S, D>, n: nat)
    requires o != Faulted && (o.Running? ==> good(o.state))
    requires forall s :: Safe(step, good, s)
    ensures Iterate(step, o, n) != Faulted
    decreases n
  {
    if n > 0 && o.Running? {
      assert Safe(step, good, o.state);
      NeverFaults(step, good, step(o.state), n - 1);
    }
  }

  /** From `s`, if it is good, a step that does not fault is a step of `flat` and leads to good states only. */
  ghost predicate Mirrors<S, T, D>(step: S -> Outcome<S, D>, flat: T -> Outcome<T, D>, image: S -> T, good: S -> bool,
                                   s: S)
  {
    good(s) && step(s) != Faulted ==>
      flat(image(s)) == ImageOf(image, step(s)) && (step(s).Running? ==> good(step(s).state))
  }

  function ImageOf<S, T, D>(image: S -> T, o: Outcome<S, D>): Outcome<T, D> {
    match o
    case Running(s) => Running(image(s))
    case Exited(d) => Exited(d)
    case Faulted => Faulted
  }

  /** If every step that does not fault is a step of `flat`, then so is every run. */
  lemma {:induction false} Simulates<S, T, D>(step: S -> Outcome<S, D>, flat: T -> Outcome<T, D>,
                                             image: S -> T, good: S -> bool, o: Outcome<S, D>, n: nat)
    requires o.Running? ==> good(o.state)
    requires forall s :: Mirrors(step, flat, image, good, s)
    requires Iterate(step, o, n) != Faulted
    ensures Iterate(flat, ImageOf(image, o), n) == ImageOf(image, Iterate(step, o, n))
    decreases n
  {
    if n > 0 && o.Running? {
      assert Mirrors(step, flat, image, good, o.state);
      assert step(o.state) != Faulted;
      Simulates(step, flat, image, good, step(o.state), n - 1);
    }
  }
}
