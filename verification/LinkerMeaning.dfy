/**
 Linking preserves meaning: the flat array runs step for step like the two sections
 it was made from.
 */
module LinkerMeaning {
  import opened Wrappers
  import opened BpfIsa
  import opened Linker

  // ----- two sections and their relocation tables: the program before linking -----

  datatype Section = Main | Text

  datatype Pc = Pc(section: Section, index: int)

  datatype Sections = Sections(main: seq<Insn>, mainTable: seq<Reloc>, text: seq<Insn>, textTable: seq<Reloc>,
    fds: seq<int>) {
    function Code(s: Section): seq<Insn> {
      if s.Main? then main else text
    }

    function Table(s: Section): seq<Reloc> {
      if s.Main? then mainTable else textTable
    }

    /** What the loader has checked, no call relocated twice, and arrays that fit the call offsets. */
    ghost predicate Ok() {
      SectionOk(main, mainTable, |fds|) && WellTyped(text, textTable, |fds|) &&
      CallsOnce(mainTable) && !HasCall(textTable) && |main| + |text| < TWO_31
    }
  }

  datatype State<D, F> = State(pc: Pc, stack: seq<(Pc, F)>, data: D)

  /** Control never leaves a section except by a relocated call and the return from it. */
  function Move<D, F>(u: Sections, pc: Pc, stack: seq<(Pc, F)>, d: D): Outcome<State<D, F>, D> {
    if 0 <= pc.index < |u.Code(pc.section)| then Running(State(pc, stack, d)) else Faulted
  }

  function Apply<D, F>(sem: Sem<D, F>, u: Sections, s: State<D, F>, e: Effect<D>): Outcome<State<D, F>, D>
  {
    var section, i := s.pc.section, s.pc.index;
    match e
    case Goto(delta, d) => Move(u, Pc(section, i + delta), s.stack, d)
    case Call(imm) =>
      Move(u, Pc(section, i + 1 + imm), s.stack + [(Pc(section, i + 1), sem.save(s.data))], sem.enter(s.data))
    case Return =>
      if |s.stack| == 0 then Exited(s.data)
      else
        var (ret, frame) := s.stack[|s.stack| - 1];
        Move(u, ret, s.stack[..|s.stack| - 1], sem.leave(frame, s.data))
    case Trap => Faulted
  }

  /** A relocated call enters the text section one past the offset it carries. */
  function EnterText<D, F>(sem: Sem<D, F>, u: Sections, s: State<D, F>, imm: int): Outcome<State<D, F>, D>
  {
    Move(u, Pc(Text, imm + 1), s.stack + [(Pc(s.pc.section, s.pc.index + 1), sem.save(s.data))], sem.enter(s.data))
  }

  /** A relocated load yields the map its record names. */
  function LoadMap<D, F>(sem: Sem<D, F>, u: Sections, s: State<D, F>, m: nat): Effect<D>
    requires 0 <= s.pc.index < |u.Code(s.pc.section)|
  {
    var second := At(u.Code(s.pc.section), s.pc.index + 1);
    if second.None? || second.value.code != 0 || m >= |u.fds| then Trap
    else Goto(2, sem.loadMap(u.Code(s.pc.section)[s.pc.index].dst, u.fds[m], s.data))
  }

  /** One step before linking. */
  function Step<D, F>(sem: Sem<D, F>, u: Sections, s: State<D, F>): Outcome<State<D, F>, D>
  {
    var code, i := u.Code(s.pc.section), s.pc.index;
    if !(0 <= i < |code|) then Faulted
    else
      match RelocAt(u.Table(s.pc.section), i)
      case Some(RelocLd64(_, m)) => Apply(sem, u, s, LoadMap(sem, u, s, m))
      case Some(RelocCall(_, _)) => EnterText(sem, u, s, code[i].imm)
      case None => Apply(sem, u, s, Decode(sem, code[i], At(code, i + 1), s.data))
  }

  function Stepper<D, F>(sem: Sem<D, F>, u: Sections): State<D, F> -> Outcome<State<D, F>, D> {
    (s: State<D, F>) => Step(sem, u, s)
  }

  function Run<D, F>(sem: Sem<D, F>, u: Sections, o: Outcome<State<D, F>, D>, n: nat): Outcome<State<D, F>, D> {
    Iterate(Stepper(sem, u), o, n)
  }

  function Start<D, F>(d: D): Outcome<State<D, F>, D> {
    Running(State(Pc(Main, 0), [], d))
  }

  // ----- where everything ends up -----

  function Address(u: Sections, pc: Pc): int {
    if pc.section.Main? then pc.index else |u.main| + pc.index
  }

  function FlatStack<F>(u: Sections, stack: seq<(Pc, F)>): seq<(int, F)> {
    seq(|stack|, k requires 0 <= k < |stack| => (Address(u, stack[k].0), stack[k].1))
  }

  function Imager<D, F>(u: Sections): State<D, F> -> FlatState<D, F> {
    (s: State<D, F>) => FlatState(Address(u, s.pc), FlatStack(u, s.stack), s.data)
  }

  function Image<D, F>(u: Sections, o: Outcome<State<D, F>, D>): Outcome<FlatState<D, F>, D> {
    ImageOf(Imager(u), o)
  }

  /** The flat array made of relocated main code and relocated text. */
  function Whole(u: Sections): seq<Insn> {
    Linked(u.main, u.mainTable, PatchAll(u.text, u.textTable, u.fds), u.fds)
  }

  /** Text addresses occur only in programs that call into the text section. */
  ghost predicate Placed<D, F>(u: Sections, s: State<D, F>) {
    0 <= s.pc.index < |u.Code(s.pc.section)| &&
    (s.pc.section.Text? ==> HasCall(u.mainTable)) &&
    forall k :: 0 <= k < |s.stack| ==> s.stack[k].0.section.Text? ==> HasCall(u.mainTable)
  }

  /** Every instruction sits, relocated, at its address, with its successor behind it. */
  lemma InstructionAt(u: Sections, pc: Pc)
    requires u.Ok() && 0 <= pc.index < |u.Code(pc.section)| && (pc.section.Text? ==> HasCall(u.mainTable))
    ensures 0 <= Address(u, pc) < |Whole(u)|
    ensures Whole(u)[Address(u, pc)]
         == PatchInsn(u.Code(pc.section)[pc.index], RelocAt(u.Table(pc.section), pc.index), |u.Code(pc.section)|, u.fds)
  {
    var code := u.Code(pc.section);
    LastCounts(code, u.Table(pc.section), pc.index, |code|, u.fds, |u.fds|);
  }

  /** A relocated instruction is a call or a 64-bit load, so a load's second word is never relocated. */
  lemma RelocatedKinds(insns: seq<Insn>, table: seq<Reloc>, nrMaps: nat, i: nat)
    requires WellTyped(insns, table, nrMaps) && i < |insns|
    ensures
      match RelocAt(table, i)
      case None => true
      case Some(RelocLd64(idx, m)) => idx == i && insns[i].code == BPF_LD_IMM_DW && m < nrMaps
      case Some(RelocCall(idx, _)) => idx == i && IsPseudoCall(insns[i]) && HasCall(table)
  {
    RelocAtFinds(table, i);
  }

  /** Reading the second word of a load gives the same value before and after linking. */
  lemma SecondWord<D, F>(sem: Sem<D, F>, u: Sections, pc: Pc, insn: Insn, d: D)
    requires u.Ok() && 0 <= pc.index < |u.Code(pc.section)| && (pc.section.Text? ==> HasCall(u.mainTable))
    requires pc.index + 1 < |u.Code(pc.section)|
    ensures Decode(sem, insn, At(Whole(u), Address(u, pc) + 1), d)
         == Decode(sem, insn, At(u.Code(pc.section), pc.index + 1), d)
  {
    InstructionAt(u, Pc(pc.section, pc.index + 1));
    RelocatedKinds(u.Code(pc.section), u.Table(pc.section), |u.fds|, pc.index + 1);
  }

  lemma MoveSimulates<D, F>(u: Sections, pc: Pc, stack: seq<(Pc, F)>, d: D)
    requires u.Ok() && (pc.section.Text? ==> HasCall(u.mainTable))
    requires Move(u, pc, stack, d) != Faulted
    ensures FlatMove(Whole(u), Address(u, pc), FlatStack(u, stack), d) == Image(u, Move(u, pc, stack, d))
  {
    InstructionAt(u, pc);
  }

  lemma PushSimulates<F>(u: Sections, stack: seq<(Pc, F)>, ret: Pc, frame: F)
    ensures FlatStack(u, stack + [(ret, frame)]) == FlatStack(u, stack) + [(Address(u, ret), frame)]
  {
  }

  lemma PopSimulates<F>(u: Sections, stack: seq<(Pc, F)>)
    requires |stack| > 0
    ensures FlatStack(u, stack)[|stack| - 1] == (Address(u, stack[|stack| - 1].0), stack[|stack| - 1].1)
    ensures FlatStack(u, stack[..|stack| - 1]) == FlatStack(u, stack)[..|stack| - 1]
  {
  }

  /** The same effect leads to the same place. */
  lemma ApplySimulates<D, F>(sem: Sem<D, F>, u: Sections, s: State<D, F>, e: Effect<D>)
    requires u.Ok() && Placed(u, s) && Apply(sem, u, s, e) != Faulted
    ensures FlatApply(sem, Whole(u), Image(u, Running(s)).state, e) == Image(u, Apply(sem, u, s, e))
  {
    var section, i := s.pc.section, s.pc.index;
    match e
    case Goto(delta, d) =>
      MoveSimulates(u, Pc(section, i + delta), s.stack, d);
    case Call(imm) =>
      PushSimulates(u, s.stack, Pc(section, i + 1), sem.save(s.data));
      MoveSimulates(u, Pc(section, i + 1 + imm), s.stack + [(Pc(section, i + 1), sem.save(s.data))], sem.enter(s.data));
    case Return =>
      if |s.stack| > 0 {
        var (ret, frame) := s.stack[|s.stack| - 1];
        PopSimulates(u, s.stack);
        MoveSimulates(u, ret, s.stack[..|s.stack| - 1], sem.leave(frame, s.data));
      }
    case Trap =>
  }

  /** After linking, a relocated load decodes to the map load its record asks for. */
  lemma RelocatedLoadDecodes<D, F>(sem: Sem<D, F>, u: Sections, s: State<D, F>, m: nat)
    requires u.Ok() && Placed(u, s) && LoadMap(sem, u, s, m) != Trap
    requires
      var r := RelocAt(u.Table(s.pc.section), s.pc.index);
      r.Some? && r.value.RelocLd64? && r.value.mapIdx == m
    ensures
      var a := Address(u, s.pc);
      0 <= a < |Whole(u)| && Decode(sem, Whole(u)[a], At(Whole(u), a + 1), s.data) == LoadMap(sem, u, s, m)
  {
    var code := u.Code(s.pc.section);
    InstructionAt(u, s.pc);
    RelocatedKinds(code, u.Table(s.pc.section), |u.fds|, s.pc.index);
    SecondWord(sem, u, s.pc, Whole(u)[Address(u, s.pc)], s.data);
  }

  /** An instruction without a record decodes as before, unless it is a load without a second word. */
  lemma PlainDecodes<D, F>(sem: Sem<D, F>, u: Sections, s: State<D, F>)
    requires u.Ok() && Placed(u, s)
    requires RelocAt(u.Table(s.pc.section), s.pc.index).None?
    ensures
      var a, code, i := Address(u, s.pc), u.Code(s.pc.section), s.pc.index;
      0 <= a < |Whole(u)| &&
      (Decode(sem, code[i], At(code, i + 1), s.data) != Trap ==>
         Decode(sem, Whole(u)[a], At(Whole(u), a + 1), s.data) == Decode(sem, code[i], At(code, i + 1), s.data))
  {
    var i, code := s.pc.index, u.Code(s.pc.section);
    InstructionAt(u, s.pc);
    if i + 1 < |code| {
      SecondWord(sem, u, s.pc, code[i], s.data);
    }
  }

  lemma RelocatedCallSimulates<D, F>(sem: Sem<D, F>, u: Sections, s: State<D, F>)
    requires u.Ok() && Placed(u, s) && Step(sem, u, s) != Faulted
    requires
      var r := RelocAt(u.Table(s.pc.section), s.pc.index);
      r.Some? && r.value.RelocCall?
    ensures s.pc.section.Main? && HasCall(u.mainTable)
    ensures FlatStep(sem, Whole(u), Image(u, Running(s)).state) == Image(u, Step(sem, u, s))
  {
    var i := s.pc.index;
    InstructionAt(u, s.pc);
    RelocatedKinds(u.Code(s.pc.section), u.Table(s.pc.section), |u.fds|, i);
    var old_imm := u.main[i].imm;
    assert 0 <= old_imm + 1 < |u.text|;
    assert Whole(u)[i] == u.main[i].(imm := old_imm + |u.main| - i);
    PushSimulates(u, s.stack, Pc(Main, i + 1), sem.save(s.data));
    MoveSimulates(u, Pc(Text, old_imm + 1), s.stack + [(Pc(Main, i + 1), sem.save(s.data))], sem.enter(s.data));
  }

  /** A step that does not fault leads to a state whose text addresses are accounted for. */
  lemma StepPlaced<D, F>(sem: Sem<D, F>, u: Sections, s: State<D, F>)
    requires u.Ok() && Placed(u, s) && Step(sem, u, s).Running?
    ensures Placed(u, Step(sem, u, s).state)
  {
    RelocatedKinds(u.Code(s.pc.section), u.Table(s.pc.section), |u.fds|, s.pc.index);
  }

  lemma PlainSimulates<D, F>(sem: Sem<D, F>, u: Sections, s: State<D, F>)
    requires u.Ok() && Placed(u, s) && Step(sem, u, s) != Faulted
    requires RelocAt(u.Table(s.pc.section), s.pc.index).None?
    ensures FlatStep(sem, Whole(u), Image(u, Running(s)).state) == Image(u, Step(sem, u, s))
  {
    var code, i := u.Code(s.pc.section), s.pc.index;
    PlainDecodes(sem, u, s);
    ApplySimulates(sem, u, s, Decode(sem, code[i], At(code, i + 1), s.data));
  }

  /** One step of the sections is one step of the flat array. */
  lemma StepSimulates<D, F>(sem: Sem<D, F>, u: Sections, s: State<D, F>)
    requires u.Ok() && Placed(u, s) && Step(sem, u, s) != Faulted
    ensures FlatStep(sem, Whole(u), Image(u, Running(s)).state) == Image(u, Step(sem, u, s))
  {
    match RelocAt(u.Table(s.pc.section), s.pc.index)
    case Some(RelocLd64(_, m)) =>
      RelocatedLoadDecodes(sem, u, s, m);
      ApplySimulates(sem, u, s, LoadMap(sem, u, s, m));
    case Some(RelocCall(_, _)) =>
      RelocatedCallSimulates(sem, u, s);
    case None =>
      PlainSimulates(sem, u, s);
  }

  /** So are all runs. */
  lemma RunSimulates<D, F>(sem: Sem<D, F>, u: Sections, s: State<D, F>, n: nat)
    requires u.Ok() && Placed(u, s) && Run(sem, u, Running(s), n) != Faulted
    ensures FlatRun(sem, Whole(u), Image(u, Running(s)), n) == Image(u, Run(sem, u, Running(s), n))
  {
    var step, flat := Stepper(sem, u), FlatStepper(sem, Whole(u));
    var image, good := Imager(u), (t: State<D, F>) => Placed(u, t);
    forall t: State<D, F>
      ensures Mirrors(step, flat, image, good, t)
    {
      if good(t) && step(t) != Faulted {
        StepSimulates(sem, u, t);
        if step(t).Running? {
          StepPlaced(sem, u, t);
        }
      }
    }
    Simulates(step, flat, image, good, Running(s), n);
  }

  // ----- programs whose control never leaves a section by accident -----

  /** From instruction `i`, control stays in the section or makes a call that lands. */
  predicate StaysInside(u: Sections, section: Section, i: nat)
    requires i < |u.Code(section)|
  {
    var code := u.Code(section);
    match RelocAt(u.Table(section), i)
    case Some(RelocLd64(_, m)) => i + 2 < |code| && code[i + 1].code == 0
    case Some(RelocCall(_, _)) => i + 1 < |code| && 0 <= code[i].imm + 1 < |u.text|
    case None =>
      if code[i].code == BPF_JMP_EXIT then true
      else if IsPseudoCall(code[i]) then i + 1 < |code| && 0 <= i + 1 + code[i].imm < |code|
      else if code[i].code == BPF_JMP_JA then 0 <= i + 1 + code[i].off < |code|
      else if code[i].code == BPF_LD_IMM_DW then i + 2 < |code| && code[i + 1].code == 0
      else i + 1 < |code| && (IsCondJump(code[i]) ==> 0 <= i + 1 + code[i].off < |code|)
  }

  ghost predicate Closed(u: Sections) {
    forall section, i :: 0 <= i < |u.Code(section)| ==> StaysInside(u, section, i)
  }

  ghost predicate Inside<D, F>(u: Sections, s: State<D, F>) {
    0 <= s.pc.index < |u.Code(s.pc.section)| &&
    forall k :: 0 <= k < |s.stack| ==> 0 <= s.stack[k].0.index < |u.Code(s.stack[k].0.section)|
  }

  lemma StepStaysInside<D, F>(sem: Sem<D, F>, u: Sections, s: State<D, F>)
    requires u.Ok() && Closed(u) && Inside(u, s)
    ensures Step(sem, u, s) != Faulted
    ensures Step(sem, u, s).Running? ==> Inside(u, Step(sem, u, s).state)
  {
    assert StaysInside(u, s.pc.section, s.pc.index);
    RelocatedKinds(u.Code(s.pc.section), u.Table(s.pc.section), |u.fds|, s.pc.index);
  }

  lemma RunStaysInside<D, F>(sem: Sem<D, F>, u: Sections, s: State<D, F>, n: nat)
    requires u.Ok() && Closed(u) && Inside(u, s)
    ensures Run(sem, u, Running(s), n) != Faulted
  {
    var step, good := Stepper(sem, u), (t: State<D, F>) => Inside(u, t);
    forall t: State<D, F> | good(t)
      ensures Safe(step, good, t)
    {
      StepStaysInside(sem, u, t);
    }
    NeverFaults(step, good, Running(s), n);
  }

  // ----- main results -----

  /**
   Every execution of the two sections that does not fault is, step for step, the
   execution of the linked array: same data, same calls, same exit.
   */
  lemma LinkedRunSimulates<D, F>(sem: Sem<D, F>, u: Sections, d: D, n: nat)
    requires u.Ok() && Run(sem, u, Start<D, F>(d), n) != Faulted
    ensures FlatRun(sem, Whole(u), Running(FlatState(0, [], d)), n) == Image(u, Run(sem, u, Start<D, F>(d), n))
  {
    var s: State<D, F> := State(Pc(Main, 0), [], d);
    assert FlatStack(u, s.stack) == [];
    RunSimulates(sem, u, s, n);
  }

  /** Programs whose control never falls out of a section behave identically for any number of steps. */
  lemma LinkingPreservesMeaning<D, F>(sem: Sem<D, F>, u: Sections, d: D, n: nat)
    requires u.Ok() && Closed(u)
    ensures FlatRun(sem, Whole(u), Running(FlatState(0, [], d)), n) == Image(u, Run(sem, u, Start<D, F>(d), n))
    ensures Run(sem, u, Start<D, F>(d), n) != Faulted
  {
    var s: State<D, F> := State(Pc(Main, 0), [], d);
    RunStaysInside(sem, u, s, n);
    LinkedRunSimulates(sem, u, d, n);
  }

  /** Program `i` of an object and the text section at position `t`, before linking; `t` is |codes| if there is none. */
  function SectionsOf(codes: seq<seq<Insn>>, tables: seq<seq<Reloc>>, t: nat, i: nat, fds: seq<int>): Sections
    requires |codes| == |tables| && i < |codes|
  {
    if t < |codes| then Sections(codes[i], tables[i], codes[t], tables[t], fds)
    else Sections(codes[i], tables[i], [], [], fds)
  }

  /** Every load of the text that has a record already carries the map it asks for. */
  ghost predicate CarriesMaps(u: Sections)
    requires u.Ok()
  {
    forall j :: 0 <= j < |u.text| && RelocAt(u.textTable, j).Some? ==> CarriesMap(u, j)
  }

  predicate CarriesMap(u: Sections, j: nat)
    requires j < |u.text| && RelocAt(u.textTable, j).Some?
  {
    var r := RelocAt(u.textTable, j).value;
    r.RelocLd64? && r.mapIdx < |u.fds| && u.text[j].src == BPF_PSEUDO_MAP_FD && u.text[j].imm == u.fds[r.mapIdx]
  }

  /** Relocating the text changes nothing exactly if its loads carry their maps. */
  lemma NothingToPatchIff(u: Sections)
    requires u.Ok()
    ensures PatchAll(u.text, u.textTable, u.fds) == u.text <==> CarriesMaps(u)
  {
    var p := PatchAll(u.text, u.textTable, u.fds);
    forall j | 0 <= j < |u.text|
      ensures p[j] == u.text[j] <==> RelocAt(u.textTable, j).Some? ==> CarriesMap(u, j)
    {
      LastCounts(u.text, u.textTable, j, |u.text|, u.fds, |u.fds|);
      RelocatedKinds(u.text, u.textTable, |u.fds|, j);
    }
  }

  /** The text section stands before the program, or is not needed, or need not be relocated. */
  ghost predicate WellPlaced(u: Sections, t: nat, i: nat)
    requires u.Ok()
  {
    t < i || !HasCall(u.mainTable) || CarriesMaps(u)
  }

  lemma SameEnds<T>(a: seq<T>, x: seq<T>, y: seq<T>)
    ensures a + x == a + y <==> x == y
  {
    if a + x == a + y {
      assert x == (a + x)[|a|..] && y == (a + y)[|a|..];
    }
  }

  /**
   The array a program is given is its code and the text, both relocated, exactly if the text
   section stands before it, or it makes no relocated call, or the loads of the text already carry
   their maps.
   */
  lemma LinkedRightIff(codes: seq<seq<Insn>>, tables: seq<seq<Reloc>>, t: nat, i: nat, fds: seq<int>)
    requires |codes| == |tables| && i < |codes| && i != t && SectionsOf(codes, tables, t, i, fds).Ok()
    ensures
      var u := SectionsOf(codes, tables, t, i, fds);
      LinkedObject(codes, tables, t, fds)[i] == Whole(u) <==> WellPlaced(u, t, i)
  {
    var u := SectionsOf(codes, tables, t, i, fds);
    var seen := TextSeen(codes, tables, t, i, fds);
    NothingToPatchIff(u);
    assert t >= |codes| ==> seen == u.text == PatchAll(u.text, u.textTable, fds);
    SameEnds(PatchAll(u.main, u.mainTable, fds), seen, PatchAll(u.text, u.textTable, fds));
  }

  /** What the loader makes of a well-placed program means what it meant. */
  lemma ObjectLinkingPreservesMeaning<D, F>(
    sem: Sem<D, F>, codes: seq<seq<Insn>>, tables: seq<seq<Reloc>>, t: nat, i: nat, fds: seq<int>, d: D, n: nat)
    requires |codes| == |tables| && i < |codes| && i != t
    requires
      var u := SectionsOf(codes, tables, t, i, fds);
      u.Ok() && WellPlaced(u, t, i) && Run(sem, u, Start<D, F>(d), n) != Faulted
    ensures
      var u := SectionsOf(codes, tables, t, i, fds);
      FlatRun(sem, LinkedObject(codes, tables, t, fds)[i], Running(FlatState(0, [], d)), n)
      == Image(u, Run(sem, u, Start<D, F>(d), n))
  {
    LinkedRightIff(codes, tables, t, i, fds);
    LinkedRunSimulates(sem, SectionsOf(codes, tables, t, i, fds), d, n);
  }

  // ----- the symbol of a call -----

  /**
   A call is given a symbol, and its value, but the linker never uses it.  The linked call reaches
   the instruction that the immediate counts from the symbol on exactly if the symbol stands at the
   section's first instruction.
   */
  lemma CallReachesSymbolIff(u: Sections, i: nat)
    requires u.Ok() && i < |u.main| && RelocAt(u.mainTable, i).Some? && RelocAt(u.mainTable, i).value.RelocCall?
    requires 0 <= u.main[i].imm + 1 < |u.text|
    ensures i < |Whole(u)|
    ensures
      var symbol := RelocAt(u.mainTable, i).value.textOff / INSN_SIZE;
      i + 1 + Whole(u)[i].imm == |u.main| + symbol + (u.main[i].imm + 1) <==> symbol == 0
  {
    InstructionAt(u, Pc(Main, i));
    RelocatedKinds(u.main, u.mainTable, |u.fds|, i);
  }

  /** A call through the symbol of the second function of the text reaches the first. */
  lemma SecondFunctionIsMissed()
    ensures
      var u := Sections([CALL_TEXT, EXIT], [RelocCall(0, INSN_SIZE)], [EXIT, EXIT], [], []);
      u.Ok() && |Whole(u)| == 4 && 0 + 1 + Whole(u)[0].imm == 2
  {
    var u := Sections([CALL_TEXT, EXIT], [RelocCall(0, INSN_SIZE)], [EXIT, EXIT], [], []);
    assert u.mainTable[0].RelocCall?;
    RelocAtFinds(u.mainTable, 0);
    InstructionAt(u, Pc(Main, 0));
  }

  // ----- the order of sections matters -----

  const LOAD_MAP := Insn(BPF_LD_IMM_DW, 1, 0, 0, 0)
  const SECOND_WORD := Insn(0, 0, 0, 0, 0)
  const EXIT := Insn(BPF_JMP_EXIT, 0, 0, 0, 0)
  const CALL_TEXT := Insn(BPF_JMP_CALL, 0, BPF_PSEUDO_CALL, 0, -1)

  /** Data that only remembers whether the last load was a map load. */
  const REMEMBER: Sem<bool, bool> :=
    Sem((insn, d) => d, (insn, d) => d, (r, lo, hi, d) => false, (r, fd, d) => true, d => d, d => d, (f, d) => d)

  const EXAMPLE_MAIN := [CALL_TEXT, EXIT]
  const EXAMPLE_TEXT := [LOAD_MAP, SECOND_WORD, EXIT]
  const EXAMPLE_MAIN_TABLE: seq<Reloc> := [RelocCall(0, 0)]
  const EXAMPLE_TEXT_TABLE: seq<Reloc> := [RelocLd64(0, 0)]
  const EXAMPLE := Sections(EXAMPLE_MAIN, EXAMPLE_MAIN_TABLE, EXAMPLE_TEXT, EXAMPLE_TEXT_TABLE, [7])

  lemma ExampleTables(i: int)
    ensures RelocAt(EXAMPLE_MAIN_TABLE, i) == if i == 0 then Some(RelocCall(0, 0)) else None
    ensures RelocAt(EXAMPLE_TEXT_TABLE, i) == if i == 0 then Some(RelocLd64(0, 0)) else None
  {
    RelocAtFinds(EXAMPLE_MAIN_TABLE, i);
    RelocAtFinds(EXAMPLE_TEXT_TABLE, i);
    assert EXAMPLE_MAIN_TABLE[0].idx == 0 && EXAMPLE_TEXT_TABLE[0].idx == 0;
  }

  lemma ExampleIsWellFormed()
    ensures EXAMPLE.Ok() && Closed(EXAMPLE) && HasCall(EXAMPLE_MAIN_TABLE)
  {
    assert EXAMPLE_MAIN_TABLE[0].RelocCall? && EXAMPLE_TEXT_TABLE[0].RelocLd64?;
    forall section, i | 0 <= i < |EXAMPLE.Code(section)|
      ensures StaysInside(EXAMPLE, section, i)
    {
      ExampleTables(i);
    }
  }

  lemma ExampleLoadsAMap()
    ensures Run(REMEMBER, EXAMPLE, Start(false), 4) == Exited(true)
  {
    var s0: State<bool, bool> := State(Pc(Main, 0), [], false);
    var s1: State<bool, bool> := State(Pc(Text, 0), [(Pc(Main, 1), false)], false);
    var s2: State<bool, bool> := State(Pc(Text, 2), [(Pc(Main, 1), false)], true);
    var s3: State<bool, bool> := State(Pc(Main, 1), [], true);
    ExampleTables(0);
    ExampleTables(1);
    ExampleTables(2);
    assert s0.stack + [(Pc(Main, 1), false)] == s1.stack;
    assert Step(REMEMBER, EXAMPLE, s0) == Running(s1);
    assert Step(REMEMBER, EXAMPLE, s1) == Running(s2);
    assert s2.stack[..0] == s3.stack;
    assert Step(REMEMBER, EXAMPLE, s2) == Running(s3);
    assert Step(REMEMBER, EXAMPLE, s3) == Exited(true);
    assert Run(REMEMBER, EXAMPLE, Running(s2), 2) == Exited(true);
  }

  lemma ExampleIsLinked()
    ensures LinkedObject([EXAMPLE_MAIN, EXAMPLE_TEXT], [EXAMPLE_MAIN_TABLE, EXAMPLE_TEXT_TABLE], 1, [7])[0]
         == [CALL_TEXT.(imm := 1), EXIT, LOAD_MAP, SECOND_WORD, EXIT]
  {
    ExampleIsWellFormed();
    var p := PatchAll(EXAMPLE_MAIN, EXAMPLE_MAIN_TABLE, [7]);
    forall i | 0 <= i < 2
      ensures p[i] == [CALL_TEXT.(imm := 1), EXIT][i]
    {
      ExampleTables(i);
      LastCounts(EXAMPLE_MAIN, EXAMPLE_MAIN_TABLE, i, 2, [7], 1);
    }
    assert p == [CALL_TEXT.(imm := 1), EXIT];
  }

  lemma ExampleLoadsANumber(flat: seq<Insn>)
    requires flat == [CALL_TEXT.(imm := 1), EXIT, LOAD_MAP, SECOND_WORD, EXIT]
    ensures FlatRun(REMEMBER, flat, Running(FlatState(0, [], false)), 4) == Exited(false)
  {
    var f0: FlatState<bool, bool> := FlatState(0, [], false);
    var f1: FlatState<bool, bool> := FlatState(2, [(1, false)], false);
    var f2: FlatState<bool, bool> := FlatState(4, [(1, false)], false);
    var f3: FlatState<bool, bool> := FlatState(1, [], false);
    assert f0.stack + [(1, false)] == f1.stack;
    assert FlatStep(REMEMBER, flat, f0) == Running(f1);
    assert FlatStep(REMEMBER, flat, f1) == Running(f2);
    assert f2.stack[..0] == f3.stack;
    assert FlatStep(REMEMBER, flat, f2) == Running(f3);
    assert FlatStep(REMEMBER, flat, f3) == Exited(false);
    assert FlatRun(REMEMBER, flat, Running(f2), 2) == Exited(false);
  }

  /**
   A caller in front of the text section receives a copy whose map load was never
   relocated: before linking the program ends having loaded a map, after linking
   it ends having loaded a plain number.
   */
  lemma TextBehindCallerLosesItsMaps()
    ensures EXAMPLE.Ok() && Closed(EXAMPLE)
    ensures Run(REMEMBER, EXAMPLE, Start(false), 4) == Exited(true)
    ensures
      var codes, tables := [EXAMPLE_MAIN, EXAMPLE_TEXT], [EXAMPLE_MAIN_TABLE, EXAMPLE_TEXT_TABLE];
      FlatRun(REMEMBER, LinkedObject(codes, tables, 1, [7])[0], Running(FlatState(0, [], false)), 4) == Exited(false)
  {
    ExampleIsWellFormed();
    ExampleLoadsAMap();
    ExampleIsLinked();
    ExampleLoadsANumber([CALL_TEXT.(imm := 1), EXIT, LOAD_MAP, SECOND_WORD, EXIT]);
  }
}
