/**
 The linker of libbpf: relocation records are collected from the object file, then
 each program is patched in place and the shared `.text` section is appended to it.
 */
module Linker {
  import opened Wrappers
  import opened BpfIsa

  datatype Errno = EINVAL | ENOMEM | FORMAT | RELOC

  /** struct reloc_desc. */
  datatype Reloc =
    | RelocLd64(idx: nat, mapIdx: nat)
    | RelocCall(idx: nat, textOff: nat)

  datatype Symbol = Symbol(shndx: int, value: nat)
  datatype Rel = Rel(offset: nat, sym: nat)

  /**
   What the object file holds.  A symbol the ELF library cannot read is None;
   `offsets` are the offsets of the maps in the maps section.
   */
  datatype Elf = Elf(symbols: seq<Option<Symbol>>, mapsShndx: int, textShndx: int, offsets: seq<nat>)

  const INSN_SIZE := 8

  // ----- the meaning of relocation records -----

  /** The first map at offset `value`, or |offsets| when there is none. */
  function FirstAt(offsets: seq<nat>, value: nat): (m: nat)
    ensures m <= |offsets| && value !in offsets[..m]
    ensures m < |offsets| ==> offsets[m] == value
  {
    if |offsets| == 0 then 0
    else if offsets[0] == value then 0
    else 1 + FirstAt(offsets[1..], value)
  }

  /** A record the loader could read, pointing inside the program. */
  predicate InSection(insns: seq<Insn>, rel: Option<Rel>) {
    rel.Some? ==> rel.value.offset / INSN_SIZE < |insns|
  }

  /** How one relocation record is understood. */
  function Classify(insns: seq<Insn>, elf: Elf, rel: Option<Rel>): Result<Reloc, Errno>
    requires InSection(insns, rel)
  {
    if rel.None? then Err(FORMAT)
    else if !(rel.value.sym < |elf.symbols|) || elf.symbols[rel.value.sym].None? then Err(FORMAT)
    else
      var sym := elf.symbols[rel.value.sym].value;
      var idx := rel.value.offset / INSN_SIZE;
      if sym.shndx != elf.mapsShndx && sym.shndx != elf.textShndx then Err(RELOC)
      else if insns[idx].code == BPF_JMP_CALL then
        if insns[idx].src != BPF_PSEUDO_CALL then Err(RELOC) else Ok(RelocCall(idx, sym.value))
      else if insns[idx].code != BPF_LD_IMM_DW then Err(RELOC)
      else if FirstAt(elf.offsets, sym.value) == |elf.offsets| then Err(RELOC)
      else Ok(RelocLd64(idx, FirstAt(elf.offsets, sym.value)))
  }

  /** The loader can read the record and its symbol. */
  predicate HasSymbol(elf: Elf, rel: Option<Rel>) {
    rel.Some? && rel.value.sym < |elf.symbols| && elf.symbols[rel.value.sym].Some?
  }

  function SymbolOf(elf: Elf, rel: Option<Rel>): Symbol
    requires HasSymbol(elf, rel)
  {
    elf.symbols[rel.value.sym].value
  }

  /**
   The records a loader has to understand: the symbol lies in the maps or the text section, and the
   record stands at a call inside the program, or at a 64-bit load, with a map at the symbol's value.
   */
  predicate Understood(insns: seq<Insn>, elf: Elf, rel: Option<Rel>)
    requires InSection(insns, rel)
  {
    HasSymbol(elf, rel) && SymbolOf(elf, rel).shndx in {elf.mapsShndx, elf.textShndx} &&
    var insn := insns[rel.value.offset / 8];
    (insn.code == 0x85 && insn.src == 1) || (insn.code == 0x18 && SymbolOf(elf, rel).value in elf.offsets)
  }

  /** What the table holds for such a record: the call and its symbol's value, or the load and the first map there. */
  predicate Describes(insns: seq<Insn>, elf: Elf, rel: Option<Rel>, reloc: Reloc)
    requires InSection(insns, rel) && HasSymbol(elf, rel)
  {
    var value := SymbolOf(elf, rel).value;
    reloc.idx == rel.value.offset / 8 &&
    if insns[rel.value.offset / 8].code == 0x85 then reloc.RelocCall? && reloc.textOff == value
    else
      reloc.RelocLd64? && reloc.mapIdx < |elf.offsets| && elf.offsets[reloc.mapIdx] == value &&
      value !in elf.offsets[..reloc.mapIdx]
  }

  /** The table describes all records, in order. */
  predicate DescribesAll(insns: seq<Insn>, elf: Elf, rels: seq<Option<Rel>>, table: seq<Reloc>) {
    |table| == |rels| &&
    forall i :: 0 <= i < |rels| ==>
      InSection(insns, rels[i]) && HasSymbol(elf, rels[i]) && Describes(insns, elf, rels[i], table[i])
  }

  lemma ClassifyIff(insns: seq<Insn>, elf: Elf, rel: Option<Rel>)
    requires InSection(insns, rel)
    ensures Classify(insns, elf, rel).Ok? <==> Understood(insns, elf, rel)
    ensures Understood(insns, elf, rel) ==> Describes(insns, elf, rel, Classify(insns, elf, rel).value)
    ensures !Understood(insns, elf, rel) ==>
      Classify(insns, elf, rel) == Err(if HasSymbol(elf, rel) then RELOC else FORMAT)
  {
    if HasSymbol(elf, rel) {
      var value := SymbolOf(elf, rel).value;
      var m := FirstAt(elf.offsets, value);
      assert m < |elf.offsets| ==> value in elf.offsets;
      assert m == |elf.offsets| ==> elf.offsets[..m] == elf.offsets;
    }
  }

  lemma ClassifyAll(insns: seq<Insn>, elf: Elf, rels: seq<Option<Rel>>)
    requires forall i :: 0 <= i < |rels| ==> InSection(insns, rels[i])
    ensures forall i :: 0 <= i < |rels| ==>
      (Classify(insns, elf, rels[i]).Ok? <==> Understood(insns, elf, rels[i])) &&
      (Understood(insns, elf, rels[i]) ==> Describes(insns, elf, rels[i], Classify(insns, elf, rels[i]).value)) &&
      (!Understood(insns, elf, rels[i]) ==>
         Classify(insns, elf, rels[i]) == Err(if HasSymbol(elf, rels[i]) then RELOC else FORMAT))
  {
    forall i | 0 <= i < |rels|
      ensures Classify(insns, elf, rels[i]).Ok? <==> Understood(insns, elf, rels[i])
      ensures Understood(insns, elf, rels[i]) ==>
        Describes(insns, elf, rels[i], Classify(insns, elf, rels[i]).value)
      ensures !Understood(insns, elf, rels[i]) ==>
        Classify(insns, elf, rels[i]) == Err(if HasSymbol(elf, rels[i]) then RELOC else FORMAT)
    {
      ClassifyIff(insns, elf, rels[i]);
    }
  }

  /** The record that applies to instruction `i`. */
  function RelocAt(relocs: seq<Reloc>, i: int): Option<Reloc> {
    if |relocs| == 0 then None
    else if relocs[|relocs| - 1].idx == i then Some(relocs[|relocs| - 1])
    else RelocAt(relocs[..|relocs| - 1], i)
  }

  lemma {:induction false} RelocAtFinds(relocs: seq<Reloc>, i: int)
    ensures RelocAt(relocs, i).Some? ==> RelocAt(relocs, i).value in relocs && RelocAt(relocs, i).value.idx == i
    ensures RelocAt(relocs, i).None? ==> forall k :: 0 <= k < |relocs| ==> relocs[k].idx != i
  {
    if |relocs| > 0 {
      RelocAtFinds(relocs[..|relocs| - 1], i);
    }
  }

  predicate HasCall(relocs: seq<Reloc>) {
    exists k :: 0 <= k < |relocs| && relocs[k].RelocCall?
  }

  /** Every record names an instruction of its kind and an existing map. */
  predicate WellTyped(insns: seq<Insn>, relocs: seq<Reloc>, nrMaps: nat) {
    forall k :: 0 <= k < |relocs| ==>
      relocs[k].idx < |insns| &&
      match relocs[k]
      case RelocLd64(idx, m) => insns[idx].code == BPF_LD_IMM_DW && m < nrMaps
      case RelocCall(idx, _) => IsPseudoCall(insns[idx])
  }

  /** No call is relocated twice; a load may be. */
  predicate CallsOnce(relocs: seq<Reloc>) {
    forall j, k :: 0 <= j < k < |relocs| && relocs[j].RelocCall? && relocs[k].RelocCall? ==>
      relocs[j].idx != relocs[k].idx
  }

  predicate SectionOk(insns: seq<Insn>, relocs: seq<Reloc>, nrMaps: nat) {
    |insns| > 0 && WellTyped(insns, relocs, nrMaps)
  }

  // ----- the linked program -----

  /** One instruction of a program of `mainLen` instructions after linking; -1 is the descriptor of no map. */
  function PatchInsn(insn: Insn, relo: Option<Reloc>, mainLen: nat, fds: seq<int>): Insn
  {
    match relo
    case None => insn
    case Some(RelocLd64(_, m)) => insn.(src := BPF_PSEUDO_MAP_FD, imm := if m < |fds| then fds[m] else -1)
    case Some(RelocCall(idx, _)) => insn.(imm := ToS32(insn.imm + mainLen - idx))
  }

  /** The instruction at `i` after all its records, one after the other. */
  function PatchedBy(insn: Insn, relocs: seq<Reloc>, i: int, mainLen: nat, fds: seq<int>): (p: Insn)
    ensures p.code == insn.code
  {
    if |relocs| == 0 then insn
    else
      var last, before := relocs[|relocs| - 1], PatchedBy(insn, relocs[..|relocs| - 1], i, mainLen, fds);
      if last.idx == i then PatchInsn(before, Some(last), mainLen, fds) else before
  }

  function PatchAll(insns: seq<Insn>, relocs: seq<Reloc>, fds: seq<int>): (p: seq<Insn>)
    ensures |p| == |insns|
  {
    seq(|insns|, i requires 0 <= i < |insns| => PatchedBy(insns[i], relocs, i, |insns|, fds))
  }

  lemma CallsOnceBefore(relocs: seq<Reloc>, i: int)
    requires CallsOnce(relocs) && |relocs| > 0 && relocs[|relocs| - 1].RelocCall? && relocs[|relocs| - 1].idx == i
    requires forall k :: 0 <= k < |relocs| && relocs[k].idx == i ==> relocs[k].RelocCall?
    ensures RelocAt(relocs[..|relocs| - 1], i).None?
  {
    var before := relocs[..|relocs| - 1];
    RelocAtFinds(before, i);
  }

  /** If no call is relocated twice, only the last record counts. */
  lemma {:induction false} LastCounts(insns: seq<Insn>, relocs: seq<Reloc>, i: nat, mainLen: nat, fds: seq<int>,
                                      nrMaps: nat)
    requires WellTyped(insns, relocs, nrMaps) && CallsOnce(relocs) && i < |insns|
    ensures PatchedBy(insns[i], relocs, i, mainLen, fds) == PatchInsn(insns[i], RelocAt(relocs, i), mainLen, fds)
  {
    if |relocs| > 0 {
      var last, before := relocs[|relocs| - 1], relocs[..|relocs| - 1];
      LastCounts(insns, before, i, mainLen, fds, nrMaps);
      if last.idx == i {
        RelocAtFinds(before, i);
        if last.RelocCall? {
          CallsOnceBefore(relocs, i);
        } else if RelocAt(before, i).Some? {
          assert RelocAt(before, i).value in before;
        }
      }
    }
  }

  /** The array handed to the kernel. */
  function Linked(insns: seq<Insn>, relocs: seq<Reloc>, text: seq<Insn>, fds: seq<int>): seq<Insn>
  {
    PatchAll(insns, relocs, fds) + (if HasCall(relocs) then text else [])
  }

  lemma PatchNothing(insns: seq<Insn>, text: seq<Insn>, fds: seq<int>)
    ensures Linked(insns, [], text, fds) == insns
  {
  }

  // ----- the objects the loader changes in place -----

  class Program {
    const idx: int            // section index
    var insns: seq<Insn>
    var mainCnt: nat          // 0 until `.text` has been appended
    var relocs: Option<seq<Reloc>>

    constructor (idx: int, code: seq<Insn>)
      requires |code| > 0
      ensures this.idx == idx && insns == code && mainCnt == 0 && relocs == None
    {
      this.idx, insns, mainCnt, relocs := idx, code, 0, None;
    }

    /** Collected, not yet linked. */
    ghost predicate Awaits(code: seq<Insn>, table: seq<Reloc>)
      reads this
    {
      insns == code && mainCnt == 0 && Descs() == table
    }

    function Descs(): seq<Reloc>
      reads this
    {
      if relocs.None? then [] else relocs.value
    }
  }

  /** bpf_program__init: a section without one whole instruction is refused. */
  method InitProgram(idx: int, code: seq<Insn>, oom: bool) returns (r: Result<Program, Errno>)
    ensures r.Ok? <==> |code| > 0 && !oom
    ensures r.Ok? ==> fresh(r.value) && r.value.idx == idx && r.value.Awaits(code, [])
    ensures |code| == 0 ==> r == Err(EINVAL)
  {
    if |code| == 0 {
      return Err(EINVAL);
    }
    if oom {
      return Err(ENOMEM);
    }
    var prog := new Program(idx, code);
    return Ok(prog);
  }

  method FindMap(offsets: seq<nat>, value: nat) returns (m: nat)
    ensures m == FirstAt(offsets, value)
  {
    m := 0;
    while m < |offsets| && offsets[m] != value
      invariant m <= |offsets|
      invariant FirstAt(offsets, value) == m + FirstAt(offsets[m..], value)
    {
      m := m + 1;
    }
  }

  /** bpf_program__collect_reloc.  `oom` says that the table cannot be allocated. */
  method CollectReloc(prog: Program, rels: seq<Option<Rel>>, elf: Elf, oom: bool) returns (r: Status<Errno>)
    requires forall i :: 0 <= i < |rels| ==> InSection(prog.insns, rels[i])
    modifies prog`relocs
    ensures oom ==> r == Failed(ENOMEM) && prog.relocs == None
    ensures !oom ==> (r.Done? <==> forall i :: 0 <= i < |rels| ==> Classify(prog.insns, elf, rels[i]).Ok?)
    ensures r.Failed? && !oom ==>
      exists i :: 0 <= i < |rels| && Classify(prog.insns, elf, rels[i]) == Err(r.error) &&
        forall j :: 0 <= j < i ==> Classify(prog.insns, elf, rels[j]).Ok?
    ensures r.Done? ==>
      |prog.Descs()| == |rels| &&
      (forall i :: 0 <= i < |rels| ==> Classify(prog.insns, elf, rels[i]) == Ok(prog.Descs()[i])) &&
      WellTyped(prog.insns, prog.Descs(), |elf.offsets|)
    ensures !oom ==> (r.Done? <==> forall i :: 0 <= i < |rels| ==> Understood(prog.insns, elf, rels[i]))
    ensures r.Failed? && !oom ==>
      exists i :: 0 <= i < |rels| && !Understood(prog.insns, elf, rels[i]) &&
        r.error == (if HasSymbol(elf, rels[i]) then RELOC else FORMAT) &&
        forall j :: 0 <= j < i ==> Understood(prog.insns, elf, rels[j])
    ensures r.Done? ==> DescribesAll(prog.insns, elf, rels, prog.Descs())
  {
    ClassifyAll(prog.insns, elf, rels);
    if oom {
      prog.relocs := None;
      return Failed(ENOMEM);
    }
    var descs: seq<Reloc> := [];
    prog.relocs := Some(descs);
    for i := 0 to |rels|
      invariant |descs| == i && prog.relocs == Some(descs)
      invariant forall j :: 0 <= j < i ==> Classify(prog.insns, elf, rels[j]) == Ok(descs[j])
    {
      if rels[i].None? {
        return Failed(FORMAT);
      }
      var rel := rels[i].value;
      if rel.sym >= |elf.symbols| || elf.symbols[rel.sym].None? {
        return Failed(FORMAT);
      }
      var sym := elf.symbols[rel.sym].value;
      if sym.shndx != elf.mapsShndx && sym.shndx != elf.textShndx {
        return Failed(RELOC);
      }
      var idx := rel.offset / INSN_SIZE;
      var insn := prog.insns[idx];
      if insn.code == BPF_JMP_CALL {
        if insn.src != BPF_PSEUDO_CALL {
          return Failed(RELOC);
        }
        descs := descs + [RelocCall(idx, sym.value)];
      } else {
        if insn.code != BPF_LD_IMM_DW {
          return Failed(RELOC);
        }
        var m := FindMap(elf.offsets, sym.value);
        if m >= |elf.offsets| {
          return Failed(RELOC);
        }
        descs := descs + [RelocLd64(idx, m)];
      }
      prog.relocs := Some(descs);
    }
    return Done;
  }

  class BpfObject {
    var programs: seq<Program>
    var fds: seq<int>         // the descriptor of each map
    const textShndx: int

    constructor (programs: seq<Program>, fds: seq<int>, textShndx: int)
      ensures this.programs == programs && this.fds == fds && this.textShndx == textShndx
    {
      this.programs, this.fds, this.textShndx := programs, fds, textShndx;
    }

    /** The programs hold `codes` and await relocation with `tables`. */
    ghost predicate Holds(codes: seq<seq<Insn>>, tables: seq<seq<Reloc>>)
      reads this, programs
    {
      |codes| == |tables| == |programs| &&
      forall i :: 0 <= i < |programs| ==> programs[i].Awaits(codes[i], tables[i])
    }
  }

  /** Every section is non-empty and has a well-formed relocation table. */
  ghost predicate Linkable(codes: seq<seq<Insn>>, tables: seq<seq<Reloc>>, nrMaps: nat) {
    |codes| == |tables| &&
    forall i :: 0 <= i < |codes| ==> SectionOk(codes[i], tables[i], nrMaps)
  }

  ghost predicate DistinctIdx(programs: seq<Program>) {
    forall i, j :: 0 <= i < j < |programs| ==> programs[i].idx != programs[j].idx
  }

  /** Position of the section with index `idx`, or |programs|. */
  function Position(programs: seq<Program>, idx: int): (p: nat)
    ensures p <= |programs|
    ensures p < |programs| ==> programs[p].idx == idx
    ensures forall i :: 0 <= i < p ==> programs[i].idx != idx
  {
    if |programs| == 0 then 0
    else if programs[0].idx == idx then 0
    else 1 + Position(programs[1..], idx)
  }

  /** bpf_object__find_prog_by_idx. */
  method FindProgByIdx(obj: BpfObject, idx: int) returns (p: Program?)
    ensures p == null <==> Position(obj.programs, idx) == |obj.programs|
    ensures p != null ==> p == obj.programs[Position(obj.programs, idx)]
  {
    for i := 0 to |obj.programs|
      invariant forall j :: 0 <= j < i ==> obj.programs[j].idx != idx
    {
      if obj.programs[i].idx == idx {
        return obj.programs[i];
      }
    }
    return null;
  }

  /** bpf_program__reloc_text. */
  method RelocText(obj: BpfObject, prog: Program, relo: Reloc, oom: bool) returns (r: Status<Errno>)
    requires relo.idx < |prog.insns|
    modifies prog
    ensures prog.relocs == old(prog.relocs)
    ensures r.Done? <==> relo.RelocCall? && old(prog.idx != obj.textShndx &&
      (prog.mainCnt == 0 ==> Position(obj.programs, obj.textShndx) < |obj.programs| && !oom))
    ensures r.Done? && old(prog.mainCnt) != 0 ==>
      prog.mainCnt == old(prog.mainCnt) &&
      prog.insns == old(prog.insns)[relo.idx := PatchInsn(old(prog.insns)[relo.idx], Some(relo), prog.mainCnt, [])]
    ensures r.Done? && old(prog.mainCnt) == 0 ==>
      prog.mainCnt == |old(prog.insns)| &&
      prog.insns == old(prog.insns)[relo.idx := PatchInsn(old(prog.insns)[relo.idx], Some(relo), prog.mainCnt, [])]
                    + obj.programs[Position(obj.programs, obj.textShndx)].insns
    ensures r.Failed? ==> prog.insns == old(prog.insns) && prog.mainCnt == old(prog.mainCnt)
  {
    if !relo.RelocCall? {
      return Failed(RELOC);
    }
    if prog.idx == obj.textShndx {
      return Failed(RELOC);
    }
    if prog.mainCnt == 0 {
      var text := FindProgByIdx(obj, obj.textShndx);
      if text == null {
        return Failed(RELOC);
      }
      if oom {
        return Failed(ENOMEM);
      }
      prog.mainCnt := |prog.insns|;
      prog.insns := prog.insns + text.insns;
    }
    var insn := prog.insns[relo.idx];
    prog.insns := prog.insns[relo.idx := insn.(imm := ToS32(insn.imm + prog.mainCnt - relo.idx))];
    return Done;
  }

  /** The instructions of the shared section as they stand now. */
  ghost function TextOf(obj: BpfObject): seq<Insn>
    reads obj, obj.programs
  {
    var t := Position(obj.programs, obj.textShndx);
    if t < |obj.programs| then obj.programs[t].insns else []
  }

  lemma HasCallOneMore(relocs: seq<Reloc>, k: nat)
    requires k < |relocs|
    ensures HasCall(relocs[..k + 1]) <==> HasCall(relocs[..k]) || relocs[k].RelocCall?
  {
    var one, less := relocs[..k + 1], relocs[..k];
    assert one[k] == relocs[k];
    if HasCall(less) {
      var j :| 0 <= j < k && less[j].RelocCall?;
      assert one[j].RelocCall?;
    }
    if HasCall(one) {
      var j :| 0 <= j < k + 1 && one[j].RelocCall?;
      assert j < k ==> less[j].RelocCall?;
    }
  }

  lemma PatchedByOneMore(insn: Insn, relocs: seq<Reloc>, k: nat, i: int, mainLen: nat, fds: seq<int>)
    requires k < |relocs|
    ensures
      var before := PatchedBy(insn, relocs[..k], i, mainLen, fds);
      PatchedBy(insn, relocs[..k + 1], i, mainLen, fds) ==
      if relocs[k].idx == i then PatchInsn(before, Some(relocs[k]), mainLen, fds) else before
  {
    assert relocs[..k + 1][..k] == relocs[..k];
  }

  lemma PatchOneMore(main: seq<Insn>, relocs: seq<Reloc>, k: nat, fds: seq<int>)
    requires k < |relocs| && relocs[k].idx < |main|
    ensures
      var before, idx := PatchAll(main, relocs[..k], fds), relocs[k].idx;
      PatchAll(main, relocs[..k + 1], fds) == before[idx := PatchInsn(before[idx], Some(relocs[k]), |main|, fds)]
  {
    var before, idx := PatchAll(main, relocs[..k], fds), relocs[k].idx;
    var patched := before[idx := PatchInsn(before[idx], Some(relocs[k]), |main|, fds)];
    forall i | 0 <= i < |main|
      ensures PatchAll(main, relocs[..k + 1], fds)[i] == patched[i]
    {
      PatchedByOneMore(main[i], relocs, k, i, |main|, fds);
    }
  }

  lemma UpdateInPrefix<T>(a: seq<T>, b: seq<T>, i: nat, x: T)
    requires i < |a|
    ensures (a + b)[i := x] == a[i := x] + b
  {
  }

  /** Linking one more record patches one instruction, and the first call brings the text. */
  lemma LinkOneMore(main: seq<Insn>, relocs: seq<Reloc>, k: nat, text: seq<Insn>, fds: seq<int>)
    requires WellTyped(main, relocs, |fds|) && k < |relocs|
    ensures HasCall(relocs[..k + 1]) <==> HasCall(relocs[..k]) || relocs[k].RelocCall?
    ensures
      var before := Linked(main, relocs[..k], text, fds);
      var patched := before[relocs[k].idx := PatchInsn(before[relocs[k].idx], Some(relocs[k]), |main|, fds)];
      Linked(main, relocs[..k + 1], text, fds)
      == patched + if relocs[k].RelocCall? && !HasCall(relocs[..k]) then text else []
  {
    HasCallOneMore(relocs, k);
    PatchOneMore(main, relocs, k, fds);
    var tail, before := if HasCall(relocs[..k]) then text else [], PatchAll(main, relocs[..k], fds);
    UpdateInPrefix(before, tail, relocs[k].idx, PatchInsn(before[relocs[k].idx], Some(relocs[k]), |main|, fds));
  }

  /** The arrays that linking record after record goes through, and when the text came in. */
  lemma LinkSteps(main: seq<Insn>, relocs: seq<Reloc>, text: seq<Insn>, fds: seq<int>)
    returns (steps: seq<seq<Insn>>, calls: seq<bool>)
    requires WellTyped(main, relocs, |fds|)
    ensures |steps| == |calls| == |relocs| + 1
    ensures steps[0] == main && !calls[0]
    ensures steps[|relocs|] == Linked(main, relocs, text, fds) && calls[|relocs|] == HasCall(relocs)
    ensures forall k :: 0 <= k < |relocs| ==>
      |steps[k]| >= |main| && (!calls[k] ==> |steps[k]| == |main|) &&
      calls[k + 1] == (calls[k] || relocs[k].RelocCall?) &&
      steps[k + 1] == steps[k][relocs[k].idx := PatchInsn(steps[k][relocs[k].idx], Some(relocs[k]), |main|, fds)]
                    + if relocs[k].RelocCall? && !calls[k] then text else []
  {
    steps := seq(|relocs| + 1, k requires 0 <= k <= |relocs| => Linked(main, relocs[..k], text, fds));
    calls := seq(|relocs| + 1, k requires 0 <= k <= |relocs| => HasCall(relocs[..k]));
    PatchNothing(main, text, fds);
    assert relocs[..0] == [] && relocs[..|relocs|] == relocs;
    forall k | 0 <= k < |relocs|
      ensures calls[k + 1] == (calls[k] || relocs[k].RelocCall?)
      ensures
        steps[k + 1] == steps[k][relocs[k].idx := PatchInsn(steps[k][relocs[k].idx], Some(relocs[k]), |main|, fds)]
                            + if relocs[k].RelocCall? && !calls[k] then text else []
    {
      LinkOneMore(main, relocs, k, text, fds);
    }
  }

  /** bpf_program__relocate. */
  method Relocate(obj: BpfObject, prog: Program, oom: bool, ghost main: seq<Insn>, ghost table: seq<Reloc>)
    returns (r: Status<Errno>)
    requires prog.Awaits(main, table) && SectionOk(main, table, |obj.fds|)
    modifies prog
    ensures r.Done? <==>
      (HasCall(table) ==> prog.idx != obj.textShndx && Position(obj.programs, obj.textShndx) < |obj.programs| && !oom)
    ensures r.Done? ==> prog.insns == Linked(main, table, old(TextOf(obj)), obj.fds) && prog.relocs == None
  {
    ghost var text := TextOf(obj);
    ghost var steps, calls := LinkSteps(main, table, text, obj.fds);
    if prog.relocs == None {
      return Done;
    }
    var relocs := prog.relocs.value;
    for k := 0 to |relocs|
      invariant prog.relocs == Some(relocs)
      invariant prog.insns == steps[k]
      invariant prog.mainCnt == if calls[k] then |main| else 0
      invariant
        calls[k] ==>
          prog.idx != obj.textShndx && Position(obj.programs, obj.textShndx) < |obj.programs| && !oom
      invariant prog.idx != obj.textShndx ==> text == TextOf(obj)
    {
      if relocs[k].RelocLd64? {
        var idx, m := relocs[k].idx, relocs[k].mapIdx;
        if idx >= |prog.insns| {
          assert false;
        }
        prog.insns := prog.insns[idx := prog.insns[idx].(src := BPF_PSEUDO_MAP_FD, imm := obj.fds[m])];
      } else {
        r := RelocText(obj, prog, relocs[k], oom);
        if r.Failed? {
          assert relocs[k].RelocCall?;
          return;
        }
      }
    }
    prog.relocs := None;
    return Done;
  }

  // ----- a whole object -----

  /** The shared section as program `i` finds it: relocated only if it stands before `i`. */
  function TextSeen(codes: seq<seq<Insn>>, tables: seq<seq<Reloc>>, t: nat, i: nat, fds: seq<int>): seq<Insn>
    requires |codes| == |tables|
  {
    if t >= |codes| then []
    else if t < i then PatchAll(codes[t], tables[t], fds)
    else codes[t]
  }

  /** The final instructions of every program. */
  function LinkedObject(codes: seq<seq<Insn>>, tables: seq<seq<Reloc>>, t: nat, fds: seq<int>): (c: seq<seq<Insn>>)
    requires |codes| == |tables|
    ensures |c| == |codes|
  {
    seq(|codes|, i requires 0 <= i < |codes| => Linked(codes[i], tables[i], TextSeen(codes, tables, t, i, fds), fds))
  }

  /** Once linked without calls of its own, the shared section is what later programs see. */
  lemma TextIsFinal(codes: seq<seq<Insn>>, tables: seq<seq<Reloc>>, t: nat, i: nat, fds: seq<int>)
    requires |codes| == |tables| && t < i && t < |codes| && !HasCall(tables[t])
    ensures LinkedObject(codes, tables, t, fds)[t] == TextSeen(codes, tables, t, i, fds)
  {
  }

  /** One turn of bpf_object__relocate. */
  method RelocateNth(obj: BpfObject, i: nat, oom: bool, ghost codes: seq<seq<Insn>>, ghost tables: seq<seq<Reloc>>)
    returns (r: Status<Errno>)
    requires i < |obj.programs| == |codes| && Linkable(codes, tables, |obj.fds|) && DistinctIdx(obj.programs)
    requires obj.programs[i].Awaits(codes[i], tables[i])
    requires
      var t := Position(obj.programs, obj.textShndx);
      (i < t < |codes| ==> obj.programs[t].insns == codes[t]) &&
      (t < i ==> !HasCall(tables[t]) && obj.programs[t].insns == LinkedObject(codes, tables, t, obj.fds)[t])
    modifies obj.programs[i]
    ensures
      var t := Position(obj.programs, obj.textShndx);
      r.Done? <==> (HasCall(tables[i]) ==> i != t && t < |codes| && !oom)
    ensures
      var t := Position(obj.programs, obj.textShndx);
      r.Done? ==> obj.programs[i].insns == LinkedObject(codes, tables, t, obj.fds)[i]
  {
    ghost var t := Position(obj.programs, obj.textShndx);
    assert i != t && t < |codes| ==> TextOf(obj) == TextSeen(codes, tables, t, i, obj.fds) by {
      if t < i {
        TextIsFinal(codes, tables, t, i, obj.fds);
      }
    }
    r := Relocate(obj, obj.programs[i], oom, codes[i], tables[i]);
  }

  /** The first `i` programs are linked, the others wait for it. */
  ghost predicate LinkedUpTo(obj: BpfObject, codes: seq<seq<Insn>>, tables: seq<seq<Reloc>>, t: nat, i: nat)
    requires |codes| == |tables|
    reads obj, obj.programs
  {
    |obj.programs| == |codes| && i <= |codes| &&
    (forall j :: 0 <= j < i ==> obj.programs[j].insns == LinkedObject(codes, tables, t, obj.fds)[j]) &&
    (forall j :: i <= j < |codes| ==> obj.programs[j].Awaits(codes[j], tables[j]))
  }

  method RelocateNext(obj: BpfObject, i: nat, oom: bool, ghost codes: seq<seq<Insn>>, ghost tables: seq<seq<Reloc>>,
                      ghost t: nat)
    returns (r: Status<Errno>)
    requires i < |obj.programs| && Linkable(codes, tables, |obj.fds|) && DistinctIdx(obj.programs)
    requires LinkedUpTo(obj, codes, tables, t, i)
    requires t == Position(obj.programs, obj.textShndx) && (t < i ==> !HasCall(tables[t]))
    modifies obj.programs[i]
    ensures r.Done? <==> (HasCall(tables[i]) ==> i != t && t < |codes| && !oom)
    ensures r.Done? ==> LinkedUpTo(obj, codes, tables, t, i + 1)
  {
    assert forall j :: 0 <= j < |codes| && j != i ==> obj.programs[j] != obj.programs[i];
    r := RelocateNth(obj, i, oom, codes, tables);
  }

  /** The calls of the first `n` programs can be linked: there is a text section, not theirs, and memory for a copy. */
  ghost predicate CallsLink(tables: seq<seq<Reloc>>, t: nat, oom: bool, n: nat)
    requires n <= |tables|
  {
    forall i :: 0 <= i < n && HasCall(tables[i]) ==> i != t && t < |tables| && !oom
  }

  /** bpf_object__relocate: every program in turn, in place. */
  method RelocateObject(obj: BpfObject, oom: bool, ghost codes: seq<seq<Insn>>, ghost tables: seq<seq<Reloc>>)
    returns (r: Status<Errno>)
    requires obj.Holds(codes, tables) && Linkable(codes, tables, |obj.fds|) && DistinctIdx(obj.programs)
    modifies obj.programs
    ensures
      var t := Position(obj.programs, obj.textShndx);
      r.Done? <==> CallsLink(tables, t, oom, |codes|)
    ensures
      var t := Position(obj.programs, obj.textShndx);
      r.Done? ==> forall i :: 0 <= i < |codes| ==> obj.programs[i].insns == LinkedObject(codes, tables, t, obj.fds)[i]
  {
    ghost var t := Position(obj.programs, obj.textShndx);
    for i := 0 to |obj.programs|
      invariant CallsLink(tables, t, oom, i)
      invariant LinkedUpTo(obj, codes, tables, t, i)
    {
      r := RelocateNext(obj, i, oom, codes, tables, t);
      if r.Failed? {
        return;
      }
    }
    return Done;
  }
}
