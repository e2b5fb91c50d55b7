/** From the relocation sections of an object file to the arrays handed to the kernel. */
module LinkerFiles {
  import opened Wrappers
  import opened BpfIsa
  import opened Linker

  /** A relocation section: the section it is for, and its records. */
  datatype RelSection = RelSection(info: int, rels: seq<Option<Rel>>)

  /** The records a program ends with: those of the last section for it. */
  function RecordsFor(secs: seq<RelSection>, idx: int): seq<Option<Rel>> {
    if |secs| == 0 then []
    else if secs[|secs| - 1].info == idx then secs[|secs| - 1].rels
    else RecordsFor(secs[..|secs| - 1], idx)
  }

  /** The programs are those of the sections `idxs`, with the instructions `codes`. */
  ghost predicate Sections(obj: BpfObject, idxs: seq<int>, codes: seq<seq<Insn>>)
    reads obj, obj.programs
  {
    |idxs| == |codes| == |obj.programs| &&
    (forall i, j :: 0 <= i < j < |idxs| ==> idxs[i] != idxs[j]) &&
    forall i :: 0 <= i < |idxs| ==>
      obj.programs[i].idx == idxs[i] && obj.programs[i].insns == codes[i] && obj.programs[i].mainCnt == 0
  }

  /** Records point inside the section they are for, which the loader takes for granted. */
  ghost predicate InSections(idxs: seq<int>, codes: seq<seq<Insn>>, sec: RelSection)
    requires |idxs| == |codes|
  {
    forall i, k :: 0 <= i < |idxs| && idxs[i] == sec.info && 0 <= k < |sec.rels| ==> InSection(codes[i], sec.rels[k])
  }

  ghost predicate AllInSections(idxs: seq<int>, codes: seq<seq<Insn>>, secs: seq<RelSection>)
    requires |idxs| == |codes|
  {
    forall s :: 0 <= s < |secs| ==> InSections(idxs, codes, secs[s])
  }

  /** A relocation section is for some program, and all its records are understood. */
  ghost predicate SectionGood(idxs: seq<int>, codes: seq<seq<Insn>>, elf: Elf, sec: RelSection)
    requires |idxs| == |codes| && InSections(idxs, codes, sec)
  {
    sec.info in idxs &&
    forall i, k :: 0 <= i < |idxs| && idxs[i] == sec.info && 0 <= k < |sec.rels| ==>
      Understood(codes[i], elf, sec.rels[k])
  }

  ghost predicate AllGood(idxs: seq<int>, codes: seq<seq<Insn>>, elf: Elf, secs: seq<RelSection>)
    requires |idxs| == |codes| && AllInSections(idxs, codes, secs)
  {
    GoodUpTo(idxs, codes, elf, secs, |secs|)
  }

  ghost predicate GoodUpTo(idxs: seq<int>, codes: seq<seq<Insn>>, elf: Elf, secs: seq<RelSection>, n: nat)
    requires |idxs| == |codes| && n <= |secs| && AllInSections(idxs, codes, secs)
  {
    forall s :: 0 <= s < n ==> SectionGood(idxs, codes, elf, secs[s])
  }

  /** There is memory for the tables of the first `n` sections. */
  ghost predicate MemoryUpTo(oom: nat -> bool, n: nat) {
    forall s :: 0 <= s < n ==> !oom(s)
  }

  /** Every program's table describes its records, and names instructions of the right kind and existing maps. */
  ghost predicate TablesOf(idxs: seq<int>, codes: seq<seq<Insn>>, elf: Elf, secs: seq<RelSection>,
                           tables: seq<seq<Reloc>>)
    requires |idxs| == |codes|
  {
    |tables| == |codes| &&
    forall i :: 0 <= i < |codes| ==>
      DescribesAll(codes[i], elf, RecordsFor(secs, idxs[i]), tables[i]) &&
      WellTyped(codes[i], tables[i], |elf.offsets|)
  }

  /** The tables collected from the first `n` relocation sections. */
  ghost predicate CollectedUpTo(obj: BpfObject, idxs: seq<int>, codes: seq<seq<Insn>>, elf: Elf, secs: seq<RelSection>,
                                n: nat)
    requires n <= |secs|
    reads obj, obj.programs
  {
    Sections(obj, idxs, codes) &&
    forall i :: 0 <= i < |codes| ==>
      DescribesAll(codes[i], elf, RecordsFor(secs[..n], idxs[i]), obj.programs[i].Descs()) &&
      WellTyped(codes[i], obj.programs[i].Descs(), |elf.offsets|)
  }

  lemma OneMoreSection(secs: seq<RelSection>, n: nat, idx: int)
    requires n < |secs|
    ensures RecordsFor(secs[..n + 1], idx) == if secs[n].info == idx then secs[n].rels else RecordsFor(secs[..n], idx)
  {
    assert secs[..n + 1][..n] == secs[..n];
  }

  lemma PositionOf(obj: BpfObject, idxs: seq<int>, codes: seq<seq<Insn>>, info: int)
    requires Sections(obj, idxs, codes)
    ensures
      var p := Position(obj.programs, info);
      (p < |idxs| <==> info in idxs) && forall i :: 0 <= i < |idxs| && idxs[i] == info ==> i == p
  {
    var p := Position(obj.programs, info);
    if p < |idxs| {
      assert idxs[p] == info;
    }
    forall i | 0 <= i < |idxs| && idxs[i] == info
      ensures i == p
    {
      assert obj.programs[i].idx == info;
    }
  }

  /** One relocation section. */
  method CollectSection(obj: BpfObject, sec: RelSection, elf: Elf, oom: bool, ghost idxs: seq<int>,
                        ghost codes: seq<seq<Insn>>) returns (r: Status<Errno>)
    requires Sections(obj, idxs, codes) && InSections(idxs, codes, sec)
    modifies obj.programs
    ensures Sections(obj, idxs, codes)
    ensures r.Done? <==> SectionGood(idxs, codes, elf, sec) && !oom
    ensures r.Done? ==> forall i :: 0 <= i < |codes| && idxs[i] == sec.info ==>
      DescribesAll(codes[i], elf, sec.rels, obj.programs[i].Descs()) &&
      WellTyped(codes[i], obj.programs[i].Descs(), |elf.offsets|)
    ensures forall i :: 0 <= i < |codes| && idxs[i] != sec.info ==>
      obj.programs[i].Descs() == old(obj.programs[i].Descs())
  {
    PositionOf(obj, idxs, codes, sec.info);
    var prog := FindProgByIdx(obj, sec.info);
    if prog == null {
      return Failed(RELOC);
    }
    assert forall i :: 0 <= i < |idxs| && idxs[i] != sec.info ==> obj.programs[i] != prog;
    r := CollectReloc(prog, sec.rels, elf, oom);
  }

  lemma StillCollected(obj: BpfObject, idxs: seq<int>, codes: seq<seq<Insn>>, elf: Elf, secs: seq<RelSection>, n: nat,
                       before: seq<seq<Reloc>>)
    requires n < |secs| && Sections(obj, idxs, codes) && |before| == |codes|
    requires forall i :: 0 <= i < |codes| ==>
      DescribesAll(codes[i], elf, RecordsFor(secs[..n], idxs[i]), before[i]) &&
      WellTyped(codes[i], before[i], |elf.offsets|)
    requires forall i :: 0 <= i < |codes| && idxs[i] == secs[n].info ==>
      DescribesAll(codes[i], elf, secs[n].rels, obj.programs[i].Descs()) &&
      WellTyped(codes[i], obj.programs[i].Descs(), |elf.offsets|)
    requires forall i :: 0 <= i < |codes| && idxs[i] != secs[n].info ==> obj.programs[i].Descs() == before[i]
    ensures CollectedUpTo(obj, idxs, codes, elf, secs, n + 1)
  {
    forall i | 0 <= i < |codes|
      ensures DescribesAll(codes[i], elf, RecordsFor(secs[..n + 1], idxs[i]), obj.programs[i].Descs())
      ensures WellTyped(codes[i], obj.programs[i].Descs(), |elf.offsets|)
    {
      OneMoreSection(secs, n, idxs[i]);
    }
  }

  /** The records collected so far, program by program. */
  ghost function Tables(programs: seq<Program>): (ts: seq<seq<Reloc>>)
    reads programs
    ensures |ts| == |programs| && forall i :: 0 <= i < |ts| ==> ts[i] == programs[i].Descs()
  {
    seq(|programs|, i requires 0 <= i < |programs| reads programs => programs[i].Descs())
  }

  method CollectNext(obj: BpfObject, secs: seq<RelSection>, n: nat, elf: Elf, oom: bool, ghost idxs: seq<int>,
                     ghost codes: seq<seq<Insn>>) returns (r: Status<Errno>)
    requires n < |secs| && CollectedUpTo(obj, idxs, codes, elf, secs, n) && InSections(idxs, codes, secs[n])
    modifies obj.programs
    ensures r.Done? <==> SectionGood(idxs, codes, elf, secs[n]) && !oom
    ensures Sections(obj, idxs, codes)
    ensures r.Done? ==> CollectedUpTo(obj, idxs, codes, elf, secs, n + 1)
  {
    ghost var before := Tables(obj.programs);
    r := CollectSection(obj, secs[n], elf, oom, idxs, codes);
    if r.Done? {
      StillCollected(obj, idxs, codes, elf, secs, n, before);
    }
  }

  lemma NothingCollected(obj: BpfObject, idxs: seq<int>, codes: seq<seq<Insn>>, elf: Elf, secs: seq<RelSection>)
    requires Sections(obj, idxs, codes) && forall i :: 0 <= i < |codes| ==> obj.programs[i].Descs() == []
    ensures CollectedUpTo(obj, idxs, codes, elf, secs, 0)
  {
  }

  /** bpf_object__collect_reloc: every relocation section in turn; `oom` says for which there is no memory. */
  method CollectObject(obj: BpfObject, secs: seq<RelSection>, elf: Elf, oom: nat -> bool, ghost idxs: seq<int>,
                       ghost codes: seq<seq<Insn>>) returns (r: Status<Errno>)
    requires Sections(obj, idxs, codes) && AllInSections(idxs, codes, secs)
    requires forall i :: 0 <= i < |codes| ==> obj.programs[i].Descs() == []
    modifies obj.programs
    ensures Sections(obj, idxs, codes)
    ensures r.Done? <==> AllGood(idxs, codes, elf, secs) && MemoryUpTo(oom, |secs|)
    ensures r.Done? ==> CollectedUpTo(obj, idxs, codes, elf, secs, |secs|)
  {
    NothingCollected(obj, idxs, codes, elf, secs);
    for s := 0 to |secs|
      invariant CollectedUpTo(obj, idxs, codes, elf, secs, s)
      invariant GoodUpTo(idxs, codes, elf, secs, s) && MemoryUpTo(oom, s)
    {
      assert InSections(idxs, codes, secs[s]);
      r := CollectNext(obj, secs, s, elf, oom(s), idxs, codes);
      if r.Failed? {
        return;
      }
    }
    return Done;
  }

  /** Some record stands at a call. */
  predicate CallsText(code: seq<Insn>, rels: seq<Option<Rel>>) {
    exists k :: 0 <= k < |rels| && rels[k].Some? && rels[k].value.offset / 8 < |code| &&
      code[rels[k].value.offset / 8].code == 0x85
  }

  lemma CallsInTable(code: seq<Insn>, elf: Elf, rels: seq<Option<Rel>>, table: seq<Reloc>)
    requires DescribesAll(code, elf, rels, table)
    ensures HasCall(table) <==> CallsText(code, rels)
  {
    forall k | 0 <= k < |rels|
      ensures
        table[k].RelocCall? <==>
        rels[k].Some? && rels[k].value.offset / 8 < |code| && code[rels[k].value.offset / 8].code == 0x85
    {
      assert Describes(code, elf, rels[k], table[k]);
    }
    if HasCall(table) {
      var k :| 0 <= k < |table| && table[k].RelocCall?;
      assert rels[k].Some? && code[rels[k].value.offset / 8].code == 0x85;
    }
    if CallsText(code, rels) {
      var k :| 0 <= k < |rels| && rels[k].Some? && rels[k].value.offset / 8 < |code| &&
        code[rels[k].value.offset / 8].code == 0x85;
      assert table[k].RelocCall?;
    }
  }

  lemma CallsInTables(idxs: seq<int>, codes: seq<seq<Insn>>, elf: Elf, secs: seq<RelSection>, tables: seq<seq<Reloc>>)
    requires |idxs| == |codes| && TablesOf(idxs, codes, elf, secs, tables)
    ensures forall i :: 0 <= i < |codes| ==> (HasCall(tables[i]) <==> CallsText(codes[i], RecordsFor(secs, idxs[i])))
  {
    forall i | 0 <= i < |codes|
      ensures HasCall(tables[i]) <==> CallsText(codes[i], RecordsFor(secs, idxs[i]))
    {
      CallsInTable(codes[i], elf, RecordsFor(secs, idxs[i]), tables[i]);
    }
  }

  /** Calls need a text section, before or behind them, and memory for a copy of it; the text makes none itself. */
  ghost predicate CallsCanBeLinked(idxs: seq<int>, codes: seq<seq<Insn>>, secs: seq<RelSection>, text: int, oom: bool)
    requires |idxs| == |codes|
  {
    forall i :: 0 <= i < |codes| && CallsText(codes[i], RecordsFor(secs, idxs[i])) ==>
      idxs[i] != text && text in idxs && !oom
  }

  lemma ReadyToRelocate(obj: BpfObject, secs: seq<RelSection>, elf: Elf, idxs: seq<int>, codes: seq<seq<Insn>>)
    requires CollectedUpTo(obj, idxs, codes, elf, secs, |secs|)
    requires forall i :: 0 <= i < |codes| ==> |codes[i]| > 0
    ensures
      var tables := Tables(obj.programs);
      TablesOf(idxs, codes, elf, secs, tables) && obj.Holds(codes, tables) &&
      Linkable(codes, tables, |elf.offsets|) && DistinctIdx(obj.programs)
  {
    assert secs[..|secs|] == secs;
  }

  /** The calls of the tables can be linked exactly if those of the records can. */
  lemma CallsAgree(obj: BpfObject, secs: seq<RelSection>, elf: Elf, oom: bool, idxs: seq<int>, codes: seq<seq<Insn>>,
                   tables: seq<seq<Reloc>>)
    requires Sections(obj, idxs, codes) && TablesOf(idxs, codes, elf, secs, tables)
    ensures
      var t := Position(obj.programs, obj.textShndx);
      CallsCanBeLinked(idxs, codes, secs, obj.textShndx, oom) <==>
      CallsLink(tables, t, oom, |codes|)
  {
    CallsInTables(idxs, codes, elf, secs, tables);
    PositionOf(obj, idxs, codes, obj.textShndx);
  }

  method RelocateCollected(obj: BpfObject, secs: seq<RelSection>, elf: Elf, oom: bool, ghost idxs: seq<int>,
                           ghost codes: seq<seq<Insn>>, ghost tables: seq<seq<Reloc>>) returns (r: Status<Errno>)
    requires CollectedUpTo(obj, idxs, codes, elf, secs, |secs|) && tables == Tables(obj.programs)
    requires |obj.fds| == |elf.offsets| && forall i :: 0 <= i < |codes| ==> |codes[i]| > 0
    modifies obj.programs
    ensures TablesOf(idxs, codes, elf, secs, tables)
    ensures r.Done? <==> CallsCanBeLinked(idxs, codes, secs, obj.textShndx, oom)
    ensures r.Done? ==>
      forall i :: 0 <= i < |codes| ==>
        obj.programs[i].insns == LinkedObject(codes, tables, Position(obj.programs, obj.textShndx), obj.fds)[i]
  {
    ReadyToRelocate(obj, secs, elf, idxs, codes);
    CallsAgree(obj, secs, elf, oom, idxs, codes, tables);
    r := RelocateObject(obj, oom, codes, tables);
  }

  /**
   The relocation sections of a file are collected, and all programs are relocated: the arrays are
   those that linking prescribes for tables that describe the file's records.
   */
  method LinkFile(obj: BpfObject, secs: seq<RelSection>, elf: Elf, oom: nat -> bool, oomText: bool,
                  ghost idxs: seq<int>, ghost codes: seq<seq<Insn>>)
    returns (r: Status<Errno>, ghost tables: seq<seq<Reloc>>)
    requires Sections(obj, idxs, codes) && AllInSections(idxs, codes, secs)
    requires forall i :: 0 <= i < |codes| ==> obj.programs[i].Descs() == [] && |codes[i]| > 0
    requires |obj.fds| == |elf.offsets|
    modifies obj.programs
    ensures r.Done? <==>
      AllGood(idxs, codes, elf, secs) && MemoryUpTo(oom, |secs|) &&
      CallsCanBeLinked(idxs, codes, secs, obj.textShndx, oomText)
    ensures r.Done? ==>
      TablesOf(idxs, codes, elf, secs, tables) &&
      forall i :: 0 <= i < |codes| ==>
        obj.programs[i].insns == LinkedObject(codes, tables, Position(obj.programs, obj.textShndx), obj.fds)[i]
  {
    tables := [];
    r := CollectObject(obj, secs, elf, oom, idxs, codes);
    if r.Done? {
      tables := Tables(obj.programs);
      r := RelocateCollected(obj, secs, elf, oomText, idxs, codes, tables);
    }
  }

  // ----- what becomes of one instruction -----

  /** Only record `k` is for instruction `i`; none is, if `k` is the number of records. */
  lemma {:induction false} PatchedByOnly(insn: Insn, table: seq<Reloc>, i: nat, k: nat, mainLen: nat, fds: seq<int>)
    requires k <= |table|
    requires forall q :: 0 <= q < |table| ==> (table[q].idx == i <==> q == k)
    ensures PatchedBy(insn, table, i, mainLen, fds)
         == if k < |table| then PatchInsn(insn, Some(table[k]), mainLen, fds) else insn
  {
    if |table| > 0 {
      var n := |table| - 1;
      PatchedByOnly(insn, table[..n], i, if k <= n then k else n, mainLen, fds);
    }
  }

  /** The first map at an offset. */
  predicate MapAt(elf: Elf, value: nat, m: nat) {
    m < |elf.offsets| && elf.offsets[m] == value && value !in elf.offsets[..m]
  }

  /** The instruction a record is for. */
  function At(rel: Option<Rel>): nat {
    if rel.Some? then rel.value.offset / 8 else 0
  }

  /** What a record makes of its instruction, on its own. */
  ghost predicate Patches(code: seq<Insn>, elf: Elf, rel: Option<Rel>, fds: seq<int>, patched: Insn)
    requires InSection(code, rel) && HasSymbol(elf, rel) && |fds| == |elf.offsets|
  {
    var insn := code[rel.value.offset / 8];
    if insn.code == 0x85 then patched == insn.(imm := ToS32(insn.imm + |code| - At(rel)))
    else exists m: nat :: MapAt(elf, SymbolOf(elf, rel).value, m) && patched == insn.(src := 1, imm := fds[m])
  }

  lemma DescribedAt(code: seq<Insn>, elf: Elf, rels: seq<Option<Rel>>, table: seq<Reloc>, q: nat)
    requires DescribesAll(code, elf, rels, table) && q < |rels|
    ensures InSection(code, rels[q]) && HasSymbol(elf, rels[q])
    ensures Describes(code, elf, rels[q], table[q]) && table[q].idx == At(rels[q])
  {
  }

  /**
   An instruction with one record: a call is rebased to where the text now stands, a load carries
   the descriptor of the first map at its symbol's value, and nothing else of the instruction changes.
   */
  lemma OneRecordPatches(code: seq<Insn>, elf: Elf, rels: seq<Option<Rel>>, table: seq<Reloc>, text: seq<Insn>,
                         fds: seq<int>, k: nat)
    requires DescribesAll(code, elf, rels, table) && |fds| == |elf.offsets| && k < |rels|
    requires forall q :: 0 <= q < |rels| && q != k ==> At(rels[q]) != At(rels[k])
    ensures InSection(code, rels[k]) && HasSymbol(elf, rels[k])
    ensures Patches(code, elf, rels[k], fds, Linked(code, table, text, fds)[At(rels[k])])
  {
    var at := At(rels[k]);
    forall q | 0 <= q < |table|
      ensures table[q].idx == at <==> q == k
    {
      DescribedAt(code, elf, rels, table, q);
    }
    DescribedAt(code, elf, rels, table, k);
    PatchedByOnly(code[at], table, at, k, |code|, fds);
    if code[at].code != 0x85 {
      assert MapAt(elf, SymbolOf(elf, rels[k]).value, table[k].mapIdx);
    }
  }

  /** An instruction without a record stays as it is. */
  lemma NoRecordKeeps(code: seq<Insn>, elf: Elf, rels: seq<Option<Rel>>, table: seq<Reloc>, text: seq<Insn>,
                      fds: seq<int>, j: nat)
    requires DescribesAll(code, elf, rels, table) && j < |code|
    requires forall q :: 0 <= q < |rels| ==> At(rels[q]) != j
    ensures Linked(code, table, text, fds)[j] == code[j]
  {
    forall q | 0 <= q < |table|
      ensures table[q].idx != j
    {
      DescribedAt(code, elf, rels, table, q);
    }
    PatchedByOnly(code[j], table, j, |table|, |code|, fds);
  }

  // ----- an object with a call -----

  const EXIT := Insn(0x95, 0, 0, 0, 0)
  const CALL := Insn(0x85, 0, 1, 0, -1)

  lemma CallExample(idxs: seq<int>, codes: seq<seq<Insn>>, elf: Elf, secs: seq<RelSection>, tables: seq<seq<Reloc>>)
    requires idxs == [7, 4] && codes == [[CALL, EXIT], [EXIT]]
    requires elf == Elf([Some(Symbol(4, 0))], 5, 4, []) && secs == [RelSection(7, [Some(Rel(0, 0))])]
    ensures AllInSections(idxs, codes, secs) && AllGood(idxs, codes, elf, secs)
    ensures CallsCanBeLinked(idxs, codes, secs, 4, false)
    ensures TablesOf(idxs, codes, elf, secs, tables) ==>
      LinkedObject(codes, tables, 1, [])[0] == [CALL.(imm := 1), EXIT, EXIT]
  {
    assert secs[..0] == [] && secs[..1] == secs;
    OneMoreSection(secs, 0, 4);
    OneMoreSection(secs, 0, 7);
    if TablesOf(idxs, codes, elf, secs, tables) {
      CallExampleLinked(elf, tables[0], [EXIT]);
      assert TextSeen(codes, tables, 1, 0, []) == [EXIT];
    }
  }

  lemma CallExampleLinked(elf: Elf, table: seq<Reloc>, text: seq<Insn>)
    requires DescribesAll([CALL, EXIT], elf, [Some(Rel(0, 0))], table) && elf.offsets == []
    ensures Linked([CALL, EXIT], table, text, []) == [CALL.(imm := 1), EXIT] + text
  {
    var code, rels := [CALL, EXIT], [Some(Rel(0, 0))];
    OneRecordPatches(code, elf, rels, table, text, [], 0);
    NoRecordKeeps(code, elf, rels, table, text, [], 1);
    CallsInTable(code, elf, rels, table);
    assert rels[0].Some? && code[rels[0].value.offset / 8].code == 0x85;
    assert PatchAll(code, table, []) == [CALL.(imm := 1), EXIT];
  }

  /** A program that calls the text section: from its one record to the array with the rebased call and the text. */
  method CallIsLinked() returns (r: Status<Errno>, insns: seq<Insn>)
    ensures r.Done? && insns == [CALL.(imm := 1), EXIT, EXIT]
  {
    var main := new Program(7, [CALL, EXIT]);
    var text := new Program(4, [EXIT]);
    var obj := new BpfObject([main, text], [], 4);
    var elf, secs := Elf([Some(Symbol(4, 0))], 5, 4, []), [RelSection(7, [Some(Rel(0, 0))])];
    ghost var idxs, codes := [7, 4], [[CALL, EXIT], [EXIT]];
    CallExample(idxs, codes, elf, secs, []);
    ghost var tables;
    PositionOf(obj, idxs, codes, 4);
    r, tables := LinkFile(obj, secs, elf, (s: nat) => false, false, idxs, codes);
    CallExample(idxs, codes, elf, secs, tables);
    insns := obj.programs[0].insns;
  }
}
