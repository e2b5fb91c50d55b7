/** The two loaders compared: their map tables, and patching map loads in one pass or in two. */
module MapPatching {
  import opened Wrappers
  import opened Bytes
  import opened BpfIsa
  import Linker
  import opened MapLoader

  // ----- tables -----

  lemma DistinctEntries(data: seq<byte>, size: nat, known: nat, sel: seq<Symbol>)
    requires AllAcceptable(data, size, known, sel) && DistinctBy(sel, ValueOf())
    ensures DistinctBy(Entries(data, size, known, sel), OffsetOf())
  {
    forall i, j | 0 <= i < j < |sel|
      ensures sel[i].value != sel[j].value
    {
      assert ValueOf()(sel[i]) != ValueOf()(sel[j]);
    }
  }

  /** Whether the section is accepted does not depend on the order of its symbols. */
  lemma AcceptanceIgnoresOrder(one: seq<Symbol>, two: seq<Symbol>, data: seq<byte>)
    requires multiset(one) == multiset(two)
    ensures LibbpfAccepts(one, data) <==> LibbpfAccepts(two, data)
  {
    SameLength(one, two);
    if LibbpfAccepts(one, data) && |one| > 0 {
      AcceptableAlike(data, Share(|data|, |one|), LIBBPF_DEF, one, two);
    }
    if LibbpfAccepts(two, data) && |one| > 0 {
      AcceptableAlike(data, Share(|data|, |one|), LIBBPF_DEF, two, one);
    }
  }

  /** For distinct offsets, the sorted table does not depend on the order of the symbols either. */
  lemma TableIgnoresOrder(one: seq<Symbol>, two: seq<Symbol>, data: seq<byte>, size: nat, known: nat,
                          t: seq<Entry>, u: seq<Entry>)
    requires multiset(one) == multiset(two) && DistinctBy(two, ValueOf())
    requires AllAcceptable(data, size, known, one) && AllAcceptable(data, size, known, two)
    requires
      Sorting(t, Entries(data, size, known, one), OffsetOf()) && Sorting(u, Entries(data, size, known, two), OffsetOf())
    ensures t == u
  {
    EntriesRearranged(data, size, known, one, two);
    UniqueSorting(t, u, Entries(data, size, known, two)) by {
      DistinctEntries(data, size, known, two);
    }
  }

  lemma UniqueSorting(t: seq<Entry>, u: seq<Entry>, es: seq<Entry>)
    requires Sorting(t, es, OffsetOf()) && Sorting(u, es, OffsetOf()) && DistinctBy(es, OffsetOf())
    ensures t == u
  {
    DistinctAlike(u, es);
    SortingIsUnique(t, u, OffsetOf());
  }

  lemma DistinctAlike(a: seq<Entry>, b: seq<Entry>)
    requires multiset(a) == multiset(b) && DistinctBy(b, OffsetOf())
    ensures DistinctBy(a, OffsetOf())
  {
    forall i, j | 0 <= i < j < |a|
      ensures a[i].offset != a[j].offset
    {
      SameMembers(a, b, a[i]);
      var k :| 0 <= k < |b| && b[k] == a[i];
      SameWithout(a, i, b, k);
      assert Without(a, i)[j - 1] == a[j];
      SameMembers(Without(a, i), Without(b, k), a[j]);
      var l :| 0 <= l < |b| - 1 && Without(b, k)[l] == a[j];
      assert OffsetOf()(b[k]) != OffsetOf()(b[if l < k then l else l + 1]);
    }
  }

  /** The symbols of a section can be put in offset order. */
  lemma {:induction false} SortedSymbols(sel: seq<Symbol>) returns (sym: seq<Symbol>)
    ensures Sorting(sym, sel, ValueOf())
  {
    if |sel| == 0 {
      sym := [];
    } else {
      var rest := SortedSymbols(sel[1..]);
      InsertKeepsSorted(rest, sel[0], CmpSymbols, ValueOf());
      sym := Insert(rest, sel[0], CmpSymbols);
      assert sel == [sel[0]] + sel[1..];
    }
  }

  /** What libbpf accepts the older loader accepts too, and finds the same maps, each record with zeros appended. */
  lemma LoadersAgree(sel: seq<Symbol>, data: seq<byte>, size: nat, t: seq<Entry>)
    requires DistinctBy(sel, ValueOf()) && AllAcceptable(data, size, LIBBPF_DEF, sel)
    requires Sorting(t, Entries(data, size, LIBBPF_DEF, sel), OffsetOf())
    ensures AllAcceptable(data, size, LOADER_DEF, sel)
    ensures Sorting(Widened(t), Entries(data, size, LOADER_DEF, sel), OffsetOf())
  {
    var sym := SortedSymbols(sel);
    CopiedAlike(data, size, LIBBPF_DEF, sym, sel);
    UniqueSorting(t, Entries(data, size, LIBBPF_DEF, sym), Entries(data, size, LIBBPF_DEF, sel)) by {
      DistinctEntries(data, size, LIBBPF_DEF, sel);
    }
    LargerAccepts(sym, data, size);
    CopiedAlike(data, size, LOADER_DEF, sym, sel);
  }

  function Widened(t: seq<Entry>): seq<Entry> {
    seq(|t|, i requires 0 <= i < |t| => t[i].(def := Resize(t[i].def, LOADER_DEF)))
  }

  lemma LargerAccepts(sym: seq<Symbol>, data: seq<byte>, size: nat)
    requires AllAcceptable(data, size, LIBBPF_DEF, sym)
    ensures AllAcceptable(data, size, LOADER_DEF, sym)
    ensures Widened(Entries(data, size, LIBBPF_DEF, sym)) == Entries(data, size, LOADER_DEF, sym)
  {
    forall i | 0 <= i < |sym|
      ensures Acceptable(data, size, LOADER_DEF, sym[i])
      ensures EntryOf(data, size, LOADER_DEF, sym[i]) ==
              Entry(sym[i].value, sym[i].name, Resize(EntryOf(data, size, LIBBPF_DEF, sym[i]).def, LOADER_DEF))
    {
      SmallerRecordIff(data[sym[i].value..sym[i].value + size], LIBBPF_DEF, LOADER_DEF);
    }
  }

  // ----- patching in one pass -----

  /** The record can be applied: a 64-bit load, and a map at the symbol's value. */
  predicate Applies(insns: seq<Insn>, elf: Linker.Elf, rel: Linker.Rel)
    requires Readable(insns, elf, rel)
  {
    insns[IndexOf(rel)].code == BPF_LD_IMM_DW &&
    Linker.FirstAt(elf.offsets, elf.symbols[rel.sym].value.value) < |elf.offsets|
  }

  predicate Readable(insns: seq<Insn>, elf: Linker.Elf, rel: Linker.Rel) {
    IndexOf(rel) < |insns| && rel.sym < |elf.symbols| && elf.symbols[rel.sym].Some?
  }

  function IndexOf(rel: Linker.Rel): nat {
    rel.offset / Linker.INSN_SIZE
  }

  predicate AllReadable(insns: seq<Insn>, elf: Linker.Elf, rels: seq<Linker.Rel>) {
    forall i :: 0 <= i < |rels| ==> Readable(insns, elf, rels[i])
  }

  /** What the first phase of libbpf would make of records that apply. */
  function Descs(elf: Linker.Elf, rels: seq<Linker.Rel>): (ds: seq<Linker.Reloc>)
    requires forall i :: 0 <= i < |rels| ==> rels[i].sym < |elf.symbols| && elf.symbols[rels[i].sym].Some?
    ensures |ds| == |rels|
  {
    seq(|rels|, i requires 0 <= i < |rels| =>
      Linker.RelocLd64(IndexOf(rels[i]), Linker.FirstAt(elf.offsets, elf.symbols[rels[i].sym].value.value)))
  }

  /** The patched instructions after the first `n` records. */
  ghost predicate Patched(now: seq<Insn>, was: seq<Insn>, elf: Linker.Elf, rels: seq<Linker.Rel>, n: nat, fds: seq<int>)
    requires AllReadable(was, elf, rels) && n <= |rels|
  {
    now == Linker.PatchAll(was, Descs(elf, rels[..n]), fds)
  }

  /** One more record changes one instruction. */
  lemma PatchStep(was: seq<Insn>, elf: Linker.Elf, rels: seq<Linker.Rel>, n: nat, fds: seq<int>)
    requires AllReadable(was, elf, rels) && n < |rels|
    ensures
      var now := Linker.PatchAll(was, Descs(elf, rels[..n]), fds);
      var d := Descs(elf, rels)[n];
      now[d.idx].code == was[d.idx].code &&
      Linker.PatchAll(was, Descs(elf, rels[..n + 1]), fds) ==
        now[d.idx := Linker.PatchInsn(now[d.idx], Some(d), |was|, fds)]
  {
    var ds := Descs(elf, rels);
    assert Descs(elf, rels[..n]) == ds[..n] && Descs(elf, rels[..n + 1]) == ds[..n + 1];
    Linker.PatchOneMore(was, ds, n, fds);
  }

  /** Record `k` is the first that does not apply. */
  predicate StopsAt(insns: seq<Insn>, elf: Linker.Elf, rels: seq<Linker.Rel>, k: int)
    requires AllReadable(insns, elf, rels)
  {
    0 <= k < |rels| && !Applies(insns, elf, rels[k]) && forall i :: 0 <= i < k ==> Applies(insns, elf, rels[i])
  }

  /** What is left then: the records before are applied, and a load without a map is marked as a map load. */
  function Halted(was: seq<Insn>, elf: Linker.Elf, rels: seq<Linker.Rel>, k: int, fds: seq<int>): seq<Insn>
    requires AllReadable(was, elf, rels) && 0 <= k < |rels|
  {
    var now, idx := Linker.PatchAll(was, Descs(elf, rels[..k]), fds), IndexOf(rels[k]);
    if was[idx].code != BPF_LD_IMM_DW then now else now[idx := now[idx].(src := BPF_PSEUDO_MAP_FD)]
  }

  /** parse_relo_and_apply: 0, or 1 at the first record that does not apply. */
  method ParseReloAndApply(insns: array<Insn>, rels: seq<Linker.Rel>, elf: Linker.Elf, fds: seq<int>) returns (ret: nat)
    requires |fds| == |elf.offsets| && AllReadable(insns[..], elf, rels)
    modifies insns
    ensures ret == 0 || ret == 1
    ensures ret == 0 <==> forall i :: 0 <= i < |rels| ==> Applies(old(insns[..]), elf, rels[i])
    ensures ret == 0 ==> insns[..] == Linker.PatchAll(old(insns[..]), Descs(elf, rels), fds)
    ensures
      ret == 1 ==>
        exists k :: StopsAt(old(insns[..]), elf, rels, k) && insns[..] == Halted(old(insns[..]), elf, rels, k, fds)
  {
    ghost var was := insns[..];
    assert Patched(insns[..], was, elf, rels, 0, fds);
    for i := 0 to |rels|
      invariant Patched(insns[..], was, elf, rels, i, fds)
      invariant forall k :: 0 <= k < i ==> Applies(was, elf, rels[k])
    {
      PatchStep(was, elf, rels, i, fds);
      var at := rels[i].offset / Linker.INSN_SIZE;
      var value := elf.symbols[rels[i].sym].value.value;
      if insns[at].code != BPF_LD_IMM_DW {
        assert StopsAt(was, elf, rels, i);
        return 1;
      }
      insns[at] := insns[at].(src := BPF_PSEUDO_MAP_FD);
      var m := Linker.FindMap(elf.offsets, value);
      if m == |elf.offsets| {
        assert StopsAt(was, elf, rels, i);
        return 1;
      }
      insns[at] := insns[at].(imm := fds[m]);
    }
    assert rels[..|rels|] == rels;
    return 0;
  }

  // ----- one pass or two -----

  /** The record belongs to a section libbpf knows, and not to a call. */
  predicate MapOnly(insns: seq<Insn>, elf: Linker.Elf, rel: Linker.Rel) {
    Readable(insns, elf, rel) && insns[IndexOf(rel)].code != BPF_JMP_CALL &&
    (elf.symbols[rel.sym].value.shndx == elf.mapsShndx || elf.symbols[rel.sym].value.shndx == elf.textShndx)
  }

  /** One pass applies exactly the records that the first of two phases understands, and in the same way. */
  lemma OnePassIsTwoPhases(insns: seq<Insn>, rels: seq<Linker.Rel>, elf: Linker.Elf, fds: seq<int>, text: seq<Insn>)
    requires AllReadable(insns, elf, rels) && forall i :: 0 <= i < |rels| ==> MapOnly(insns, elf, rels[i])
    ensures
      forall i :: 0 <= i < |rels| ==> (Applies(insns, elf, rels[i]) <==> Linker.Classify(insns, elf, Some(rels[i])).Ok?)
    ensures forall i :: 0 <= i < |rels| && Applies(insns, elf, rels[i]) ==>
      Linker.Classify(insns, elf, Some(rels[i])) == Ok(Descs(elf, rels)[i])
    ensures Linker.Linked(insns, Descs(elf, rels), text, fds) == Linker.PatchAll(insns, Descs(elf, rels), fds)
  {
    assert !Linker.HasCall(Descs(elf, rels));
  }

  /** Both phases of libbpf on a program: collecting its records, then applying them. */
  method TwoPhases(prog: Linker.Program, obj: Linker.BpfObject, rels: seq<Linker.Rel>, elf: Linker.Elf,
                   ghost was: seq<Insn>)
    returns (r: Status<Linker.Errno>)
    requires prog.Awaits(was, []) && |was| > 0 && |obj.fds| == |elf.offsets|
    requires AllReadable(was, elf, rels) && forall i :: 0 <= i < |rels| ==> MapOnly(was, elf, rels[i])
    modifies prog
    ensures r.Done? <==> forall i :: 0 <= i < |rels| ==> Applies(was, elf, rels[i])
    ensures r.Done? ==> prog.insns == Linker.PatchAll(was, Descs(elf, rels), obj.fds)
  {
    var records := seq(|rels|, i requires 0 <= i < |rels| => Some(rels[i]));
    r := Linker.CollectReloc(prog, records, elf, false);
    OnePassIsTwoPhases(was, rels, elf, obj.fds, Linker.TextOf(obj));
    assert forall i :: 0 <= i < |rels| ==> (Applies(was, elf, rels[i]) <==> Linker.Classify(was, elf, records[i]).Ok?);
    if r.Done? {
      assert prog.Descs() == Descs(elf, rels);
      r := Linker.Relocate(obj, prog, false, was, Descs(elf, rels));
    }
  }

  /**
   Both loaders on the same instructions, also if a load has several records: they succeed alike,
   with the same result.
   */
  method BothLoaders(prog: Linker.Program, obj: Linker.BpfObject, copy: array<Insn>, rels: seq<Linker.Rel>,
                     elf: Linker.Elf)
    returns (two: Status<Linker.Errno>, one: nat)
    requires prog.Awaits(copy[..], []) && copy.Length > 0 && |obj.fds| == |elf.offsets|
    requires AllReadable(copy[..], elf, rels) && forall i :: 0 <= i < |rels| ==> MapOnly(copy[..], elf, rels[i])
    modifies prog, copy
    ensures two.Done? <==> one == 0
    ensures two.Done? ==> prog.insns == copy[..]
  {
    ghost var was := copy[..];
    two := TwoPhases(prog, obj, rels, elf, was);
    one := ParseReloAndApply(copy, rels, elf, obj.fds);
  }

  /** Beyond that, one pass also applies records of symbols in other sections, which two phases refuse. */
  lemma OtherSectionsDiffer(insns: seq<Insn>, elf: Linker.Elf, rel: Linker.Rel)
    requires Readable(insns, elf, rel) && insns[IndexOf(rel)].code != BPF_JMP_CALL && Applies(insns, elf, rel)
    ensures Linker.Classify(insns, elf, Some(rel)).Ok? <==> MapOnly(insns, elf, rel)
  {
  }
}
