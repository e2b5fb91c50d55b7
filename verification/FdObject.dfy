/** Open, load, unload and close of a BPF object, with every descriptor accounted for. */
module FdObject {
  import opened Wrappers
  import opened FdLifecycle

  const EINVAL := -22
  const ENOMEM := -12
  const EINTERNAL := -4004   // -LIBBPF_ERRNO__INTERNAL
  const ELOAD := -4006
  const EVERIFY := -4007
  const EPROG2BIG := -4008
  const EKVER := -4009
  const EPROGTYPE := -4010

  // ----- what the outside world answers while an object is opened -----

  /**
   A section of the file: BTF data, with the kernel's answer to loading it; code, `isText` marking
   the section the object takes for `.text`, the last of that name; or any other.
   */
  datatype Section =
    | Btf(answer: int, parses: bool)
    | Code(isText: bool, ok: bool)
    | Other(ok: bool)

  /**
   `path` is the kernel's answer to opening the file, None for a buffer; `begins` and `valid`
   tell how the ELF library likes it; `maps` is the number of maps, None for a bad maps section;
   `rest` is whether relocations can be collected and the object passes validation.
   */
  datatype Script = Script(path: Option<int>, begins: bool, valid: bool, sections: seq<Section>, maps: Option<nat>,
    rest: bool)

  predicate Good(s: Section) {
    s.Btf? && s.answer >= 0 && s.parses
  }

  predicate Fails(s: Section) {
    (s.Code? || s.Other?) && !s.ok
  }

  /** No section stops the loop. */
  predicate AllPass(ss: seq<Section>) {
    forall i :: 0 <= i < |ss| && !ss[i].Btf? ==> ss[i].ok
  }

  /** The code sections before the first section that stops the loop: whether each is `.text`. */
  function CodeOf(ss: seq<Section>): seq<bool>
    decreases |ss|
  {
    if |ss| == 0 || Fails(ss[0]) then []
    else (if ss[0].Code? then [ss[0].isText] else []) + CodeOf(ss[1..])
  }

  /** The program a section brings. */
  function Brought(s: Section): seq<Instances> {
    if s.Code? then [Instances(s.isText, -1, [], false)] else []
  }

  /** The programs of these code sections, none of them loaded: no slots, no preprocessor. */
  function NewPrograms(code: seq<bool>): (ps: seq<Instances>)
    ensures |ps| == |code|
  {
    seq(|code|, p requires 0 <= p < |code| => Instances(code[p], -1, [], false))
  }

  /** The BTF descriptor the object holds after the sections, having held `btf` before. */
  function BtfAfter(btf: Option<int>, ss: seq<Section>): Option<int>
    decreases |ss|
  {
    if |ss| == 0 || Fails(ss[0]) then btf
    else if ss[0].Btf? then BtfAfter(if Good(ss[0]) then Some(ss[0].answer) else None, ss[1..])
    else BtfAfter(btf, ss[1..])
  }

  /** The BTF descriptors whose slot is overwritten: every BTF section replaces the one before. */
  function LostBy(btf: Option<int>, ss: seq<Section>): seq<int>
    decreases |ss|
  {
    if |ss| == 0 || Fails(ss[0]) then []
    else if ss[0].Btf? then
      (if btf.Some? then [btf.value] else []) + LostBy(if Good(ss[0]) then Some(ss[0].answer) else None, ss[1..])
    else LostBy(btf, ss[1..])
  }

  /** The kernel's answers are new: in no use, and no two the same. */
  ghost predicate NewAnswers(ss: seq<Section>, open: set<nat>) {
    forall i :: 0 <= i < |ss| && ss[i].Btf? && ss[i].answer >= 0 ==>
      ss[i].answer !in open &&
      forall j :: i < j < |ss| && ss[j].Btf? ==> ss[j].answer != ss[i].answer
  }

  predicate FileStaysOpen(s: Script) {
    s.path.Some? && s.path.value >= 0 && !s.begins
  }

  predicate Opens(s: Script) {
    (s.path.Some? ==> s.path.value >= 0) && s.begins && s.valid
  }

  /** The object is opened: the file is accepted, no section stops the loop, maps and what is left are in order. */
  predicate Complete(s: Script) {
    (s.path.Some? ==> s.path.value >= 0) && s.begins && s.valid &&
    AllPass(s.sections) && s.maps.Some? && s.rest
  }

  /** The same programs: neither their kind nor their preprocessor has changed. */
  predicate SamePrograms(was: seq<Instances>, now: seq<Instances>) {
    |was| == |now| && forall p :: 0 <= p < |was| ==> now[p].isText == was[p].isText && now[p].prep == was[p].prep
  }

  /** The descriptors that are never closed. */
  function Leaks(s: Script): seq<int> {
    if FileStaysOpen(s) then [s.path.value]
    else if Opens(s) then LostBy(None, s.sections)
    else []
  }

  ghost predicate NewScript(s: Script, open: set<nat>) {
    (s.path.Some? && s.path.value >= 0 ==>
      s.path.value !in open &&
      forall i :: 0 <= i < |s.sections| && s.sections[i].Btf? ==> s.sections[i].answer != s.path.value) &&
    NewAnswers(s.sections, open)
  }

  // ----- what it answers while an object is loaded -----

  /** The kernel's answers for a map: to the first call, and to the second one without the BTF it may have named. */
  datatype MapCall = MapCall(refused: bool, withBtf: bool, refusedAgain: bool)

  /**
   The kernel's answer for a program, and what decides about the error: whether there is a log
   buffer, and a log in it, whether the program is too big or a kprobe, and the answer to the probe.
   */
  datatype Attempt = Attempt(
    insns: bool, refused: bool, logBuf: bool, log: bool, tooBig: bool, kprobe: bool, probeRefused: bool)

  /** What the preprocessor says to an instance, 0 being success, and the kernel to what it made of it. */
  datatype InstanceCall = InstanceCall(prepErr: int, skips: bool, attempt: Attempt)

  datatype World = World(
    maps: nat -> MapCall, relocates: int, oom: nat -> bool, instances: (nat, nat) -> InstanceCall)

  /** The map gets a descriptor. */
  predicate MapGranted(btf: Option<int>, w: World, i: nat) {
    !w.maps(i).refused || (btf.Some? && w.maps(i).withBtf && !w.maps(i).refusedAgain)
  }

  predicate Attained(a: Attempt) {
    a.insns && !a.refused
  }

  /** The errors of load_program. */
  function LoadError(a: Attempt): (err: int)
    ensures err == 0 <==> Attained(a)
  {
    if !a.insns then EINVAL
    else if !a.refused then 0
    else if a.logBuf && a.log then EVERIFY
    else if a.tooBig then EPROG2BIG
    else if !a.kprobe && !a.probeRefused then EPROGTYPE
    else if a.logBuf then EKVER
    else ELOAD
  }

  /** Instance `i` of a program with preprocessor is loaded or skipped. */
  predicate InstancePasses(w: World, p: nat, i: nat) {
    w.instances(p, i).prepErr == 0 && (w.instances(p, i).skips || Attained(w.instances(p, i).attempt))
  }

  /** Program `p` can be loaded; with a preprocessor it must still have its slots. */
  predicate ProgramLoads(was: Instances, w: World, p: nat) {
    if was.prep then was.nr >= 0 && forall i :: 0 <= i < was.nr ==> InstancePasses(w, p, i)
    else (was.nr >= 0 || !w.oom(p)) && Attained(w.instances(p, 0).attempt)
  }

  /** What has become of the program then: a descriptor in every slot but those of skipped instances. */
  predicate ProgramLoaded(was: Instances, now: Instances, w: World, p: nat) {
    now.isText == was.isText && now.prep == was.prep && now.nr == |now.fds| == (if was.nr == -1 then 1 else was.nr) &&
    forall i :: 0 <= i < |now.fds| && (was.prep || i == 0) ==>
      if was.prep && w.instances(p, i).skips then now.fds[i] == -1 else now.fds[i] >= 0
  }

  /** The first `n` programs, but for `.text`, can be loaded. */
  predicate AllLoad(was: seq<Instances>, w: World, n: nat)
    requires n <= |was|
  {
    forall p :: 0 <= p < n && !was[p].isText ==> ProgramLoads(was[p], w, p)
  }

  /** They are loaded, and `.text` is left as it was. */
  predicate AllLoaded(was: seq<Instances>, now: seq<Instances>, w: World, n: nat)
    requires n <= |was| == |now|
  {
    forall p :: 0 <= p < n ==> if was[p].isText then now[p] == was[p] else ProgramLoaded(was[p], now[p], w, p)
  }

  /** The kernel grants every map, the programs are relocated, and each of them can be loaded. */
  predicate CanLoad(s: Slots, w: World) {
    (forall i :: 0 <= i < |s.maps| ==> MapGranted(s.btf, w, i)) && w.relocates == 0 &&
    AllLoad(s.programs, w, |s.programs|)
  }

  // ----- the object -----

  class BpfObject {
    var elf: bool
    var elfFd: int
    var btf: Option<int>
    var maps: seq<int>
    var programs: seq<Instances>
    var loaded: bool
    ghost var lost: seq<int>

    /** bpf_object__new. */
    constructor ()
      ensures !elf && !loaded && State() == Slots(-1, None, [], [], [])
    {
      elf, elfFd, btf, maps, programs, loaded, lost := false, -1, None, [], [], false, [];
    }

    ghost function State(): Slots
      reads this
    {
      Slots(elfFd, btf, maps, programs, lost)
    }

    /** The descriptors open beyond `base` are exactly those of this object. */
    ghost predicate Owns(k: Kernel, base: set<nat>)
      reads this, k
    {
      Balanced(k.open, base, State()) && AllWellFormed(programs) && (btf.Some? ==> btf.value >= 0) && elfFd >= -1
    }

    ghost predicate Unloaded()
      reads this
    {
      AllFree(maps) && Idle(programs)
    }

    /** Loading starts with free slots only. */
    ghost predicate Ready()
      reads this
    {
      loaded || Unloaded()
    }

    // ----- slots -----

    /** zclose(obj->maps[i].fd). */
    method CloseMap(k: Kernel, i: nat, ghost base: set<nat>)
      requires Owns(k, base) && i < |maps|
      modifies k, this`maps
      ensures Owns(k, base) && maps == old(maps)[i := -1]
    {
      ghost var s := State();
      MapSwap(s, i, -1);
      CloseBalances(k.open, base, s, s.(maps := maps[i := -1]), maps[i]);
      var slot := k.Zclose(maps[i]);
      maps := maps[i := slot];
    }

    method CloseMaps(k: Kernel, n: nat, ghost base: set<nat>)
      requires Owns(k, base) && n <= |maps|
      modifies k, this`maps
      ensures Owns(k, base) && |maps| == old(|maps|)
      ensures forall j :: 0 <= j < |maps| ==> maps[j] == if j < n then -1 else old(maps)[j]
    {
      for i := 0 to n
        invariant Owns(k, base) && |maps| == old(|maps|)
        invariant forall j :: 0 <= j < |maps| ==> maps[j] == if j < i then -1 else old(maps)[j]
      {
        CloseMap(k, i, base);
      }
    }

    /** A new descriptor, or -1, goes into a free slot of a map. */
    method IssueMap(k: Kernel, i: nat, refuses: bool, ghost base: set<nat>)
      requires Owns(k, base) && i < |maps| && maps[i] == -1
      modifies k, this`maps
      ensures Owns(k, base) && |maps| == old(|maps|) && maps == old(maps)[i := maps[i]]
      ensures if refuses then maps[i] == -1 else maps[i] >= 0
    {
      ghost var s, open := State(), k.open;
      var fd := k.Grant(refuses);
      maps := maps[i := fd];
      MapSwap(s, i, fd);
      IssueBalances(open, base, s, State(), fd);
    }

    method CloseInstance(k: Kernel, p: nat, i: nat, ghost base: set<nat>)
      requires Owns(k, base) && p < |programs| && i < |programs[p].fds|
      modifies k, this`programs
      ensures Owns(k, base) && programs == SetFd(old(State()), p, i, -1).programs
    {
      ghost var s := State();
      ProgSwap(s, p, i, -1);
      CloseBalances(k.open, base, s, SetFd(s, p, i, -1), programs[p].fds[i]);
      var slot := k.Zclose(programs[p].fds[i]);
      programs := programs[p := programs[p].(fds := programs[p].fds[i := slot])];
    }

    // ----- loading -----

    /** bpf_object__create_maps: all maps get a descriptor, or none does. */
    method CreateMaps(k: Kernel, w: World, ghost base: set<nat>) returns (err: int)
      requires Owns(k, base) && AllFree(maps)
      modifies k, this`maps
      ensures Owns(k, base) && |maps| == old(|maps|)
      ensures err == 0 <==> forall i :: 0 <= i < |maps| ==> MapGranted(btf, w, i)
      ensures err == 0 ==> forall i :: 0 <= i < |maps| ==> maps[i] >= 0
      ensures err != 0 ==> AllFree(maps)
    {
      for i := 0 to |maps|
        invariant Owns(k, base) && |maps| == old(|maps|)
        invariant forall j :: 0 <= j < |maps| ==> if j < i then maps[j] >= 0 else maps[j] == -1
        invariant forall j :: 0 <= j < i ==> MapGranted(btf, w, j)
      {
        IssueMap(k, i, w.maps(i).refused, base);
        if maps[i] < 0 && btf.Some? && w.maps(i).withBtf {
          IssueMap(k, i, w.maps(i).refusedAgain, base);
        }
        if maps[i] < 0 {
          assert !MapGranted(btf, w, i);
          err := maps[i];
          CloseMaps(k, i, base);
          return;
        }
      }
      return 0;
    }

    /** load_program: a descriptor for the program, or an error; a descriptor got by probing is closed again. */
    method LoadProgram(k: Kernel, a: Attempt) returns (err: int, fd: int)
      modifies k
      ensures err == LoadError(a)
      ensures err == 0 ==> fd >= 0 && fd !in old(k.open) && k.open == old(k.open) + {fd}
      ensures err != 0 ==> k.open == old(k.open)
    {
      if !a.insns {
        return EINVAL, -1;
      }
      fd := k.Grant(a.refused);
      if fd >= 0 {
        return 0, fd;
      }
      err := ELOAD;
      if a.logBuf && a.log {
        err := EVERIFY;
      } else if a.tooBig {
        err := EPROG2BIG;
      } else {
        if !a.kprobe {
          var probe := k.Grant(a.probeRefused);
          if probe >= 0 {
            k.Close(probe);
            return EPROGTYPE, -1;
          }
        }
        if a.logBuf {
          err := EKVER;
        }
      }
    }

    /** One instance is loaded into its free slot. */
    method LoadInstance(k: Kernel, p: nat, i: nat, a: Attempt, ghost base: set<nat>) returns (err: int)
      requires Owns(k, base) && p < |programs| && i < |programs[p].fds| && programs[p].fds[i] == -1
      modifies k, this`programs
      ensures Owns(k, base) && |programs| == old(|programs|) && |programs[p].fds| == |old(programs)[p].fds|
      ensures err == LoadError(a)
      ensures err != 0 ==> programs == old(programs)
      ensures err == 0 ==> programs[p].fds[i] >= 0 && programs == SetFd(old(State()), p, i, programs[p].fds[i]).programs
    {
      ghost var s, open := State(), k.open;
      var fd;
      err, fd := LoadProgram(k, a);
      if err == 0 {
        programs := programs[p := programs[p].(fds := programs[p].fds[i := fd])];
        ProgSwap(s, p, i, fd);
        IssueBalances(open, base, s, State(), fd);
      }
    }

    /** The first part of bpf_program__load: a program without preprocessor gets its one slot. */
    method Allocate(k: Kernel, p: nat, oom: bool, ghost base: set<nat>) returns (err: int)
      requires Owns(k, base) && p < |programs| && AllFree(programs[p].fds)
      modifies this`programs
      ensures
        Owns(k, base) && |programs| == old(|programs|) && programs == old(programs)[p := programs[p]] &&
        AllFree(programs[p].fds)
      ensures programs[p].prep == old(programs)[p].prep && programs[p].isText == old(programs)[p].isText
      ensures err == if old(programs)[p].nr >= 0 then 0 else if old(programs)[p].prep then EINTERNAL
                     else if oom then ENOMEM else 0
      ensures err == 0 ==> programs[p].nr == if old(programs)[p].nr >= 0 then old(programs)[p].nr else 1
      ensures err != 0 ==> programs == old(programs)
    {
      if programs[p].nr >= 0 {
        return 0;
      }
      if programs[p].prep {
        return EINTERNAL;
      }
      if oom {
        return ENOMEM;
      }
      ghost var to := programs[p].(nr := 1, fds := [-1]);
      FreeSlots(k.open, base, State(), p, to);
      programs := programs[p := programs[p].(nr := 1, fds := [-1])];
      return 0;
    }

    /** The instances of a program with a preprocessor, one after the other. */
    method LoadEach(k: Kernel, w: World, p: nat, ghost base: set<nat>) returns (err: int)
      requires Owns(k, base) && p < |programs| && AllFree(programs[p].fds) && programs[p].prep && programs[p].nr > 0
      modifies k, this`programs
      ensures Owns(k, base) && |programs| == old(|programs|)
      ensures programs == old(programs)[p := old(programs)[p].(fds := programs[p].fds)]
      ensures err == 0 <==> ProgramLoads(old(programs)[p], w, p)
      ensures err == 0 ==> ProgramLoaded(old(programs)[p], programs[p], w, p)
    {
      var n := programs[p].nr;
      for i := 0 to n
        invariant Owns(k, base) && |programs| == old(|programs|) && n == |programs[p].fds|
        invariant programs == old(programs)[p := old(programs)[p].(fds := programs[p].fds)]
        invariant forall j :: 0 <= j < i ==> InstancePasses(w, p, j)
        invariant forall j :: 0 <= j < |programs[p].fds| ==>
          if j >= i || w.instances(p, j).skips then programs[p].fds[j] == -1 else programs[p].fds[j] >= 0
      {
        var call := w.instances(p, i);
        if call.prepErr != 0 {
          assert !InstancePasses(w, p, i);
          return call.prepErr;
        }
        if !call.skips {
          err := LoadInstance(k, p, i, call.attempt, base);
          if err != 0 {
            assert !InstancePasses(w, p, i);
            return;
          }
        }
      }
      return 0;
    }

    /** bpf_program__load. */
    method LoadInstances(k: Kernel, w: World, p: nat, ghost base: set<nat>) returns (err: int)
      requires Owns(k, base) && p < |programs| && AllFree(programs[p].fds)
      modifies k, this`programs
      ensures Owns(k, base) && |programs| == old(|programs|)
      ensures forall q :: 0 <= q < |programs| && q != p ==> programs[q] == old(programs)[q]
      ensures programs[p].prep == old(programs)[p].prep && programs[p].isText == old(programs)[p].isText
      ensures err == 0 <==> ProgramLoads(old(programs)[p], w, p)
      ensures err == 0 ==> ProgramLoaded(old(programs)[p], programs[p], w, p)
    {
      err := Allocate(k, p, w.oom(p), base);
      if err != 0 {
        return;
      }
      if !programs[p].prep {
        err := LoadInstance(k, p, 0, w.instances(p, 0).attempt, base);
        return;
      }
      err := LoadEach(k, w, p, base);
    }

    /** bpf_object__load_progs. */
    method LoadProgs(k: Kernel, w: World, ghost base: set<nat>) returns (err: int)
      requires Owns(k, base) && Idle(programs)
      modifies k, this`programs
      ensures Owns(k, base) && SamePrograms(old(programs), programs)
      ensures err == 0 <==> AllLoad(old(programs), w, |programs|)
      ensures err == 0 ==> AllLoaded(old(programs), programs, w, |programs|)
    {
      for p := 0 to |programs|
        invariant Owns(k, base) && SamePrograms(old(programs), programs)
        invariant AllLoad(old(programs), w, p) && AllLoaded(old(programs), programs, w, p)
        invariant forall q :: p <= q < |programs| ==> programs[q] == old(programs)[q]
      {
        if !programs[p].isText {
          err := LoadInstances(k, w, p, base);
          if err != 0 {
            return;
          }
        }
      }
      return 0;
    }

    /** bpf_object__load. */
    method Load(k: Kernel, w: World, ghost base: set<nat>) returns (err: int)
      requires Owns(k, base) && Ready()
      modifies k, this`maps, this`programs, this`loaded
      ensures Owns(k, base) && Ready() && loaded
      ensures |maps| == old(|maps|) && SamePrograms(old(programs), programs)
      ensures old(loaded) ==> err == EINVAL && State() == old(State()) && k.open == old(k.open)
      ensures err == 0 <==> !old(loaded) && CanLoad(old(State()), w)
      ensures err == 0 ==>
        (forall i :: 0 <= i < |maps| ==> maps[i] >= 0) && AllLoaded(old(programs), programs, w, |programs|)
      ensures err != 0 && !old(loaded) ==> Unloaded()
    {
      if loaded {
        return EINVAL;
      }
      loaded := true;
      err := CreateMaps(k, w, base);
      if err == 0 {
        err := w.relocates;
      }
      if err == 0 {
        err := LoadProgs(k, w, base);
      }
      if err != 0 {
        Unload(k, base);
      }
    }

    // ----- unloading -----

    /** bpf_program__unload. */
    method UnloadProgram(k: Kernel, p: nat, ghost base: set<nat>)
      requires Owns(k, base) && p < |programs|
      modifies k, this`programs
      ensures Owns(k, base) && programs == old(programs)[p := old(programs)[p].(nr := -1, fds := [])]
    {
      for i := 0 to |programs[p].fds|
        invariant Owns(k, base) && |programs| == old(|programs|)
        invariant programs == old(programs)[p := old(programs)[p].(fds := programs[p].fds)]
        invariant |programs[p].fds| == |old(programs)[p].fds| && forall j :: 0 <= j < i ==> programs[p].fds[j] == -1
      {
        CloseInstance(k, p, i, base);
      }
      FreeSlots(k.open, base, State(), p, programs[p].(nr := -1, fds := []));
      programs := programs[p := programs[p].(nr := -1, fds := [])];
    }

    method UnloadPrograms(k: Kernel, ghost base: set<nat>)
      requires Owns(k, base)
      modifies k, this`programs
      ensures Owns(k, base) && Idle(programs) && SamePrograms(old(programs), programs)
      ensures forall p :: 0 <= p < |programs| ==> programs[p].nr == -1
    {
      for p := 0 to |programs|
        invariant Owns(k, base) && SamePrograms(old(programs), programs)
        invariant forall q :: 0 <= q < p ==> programs[q].nr == -1 && programs[q].fds == []
      {
        UnloadProgram(k, p, base);
      }
    }

    /** bpf_object__unload. */
    method Unload(k: Kernel, ghost base: set<nat>)
      requires Owns(k, base)
      modifies k, this`maps, this`programs
      ensures Owns(k, base) && Unloaded() && |maps| == old(|maps|) && SamePrograms(old(programs), programs)
      ensures forall p :: 0 <= p < |programs| ==> programs[p].nr == -1
    {
      CloseMaps(k, |maps|, base);
      UnloadPrograms(k, base);
    }

    /** bpf_program__set_prep. */
    method SetPrep(k: Kernel, p: nat, n: int, oom: bool, ghost base: set<nat>) returns (err: int)
      requires Owns(k, base) && p < |programs|
      modifies this`programs
      ensures Owns(k, base) && (old(Ready()) ==> Ready())
      ensures err == if n <= 0 || old(programs)[p].nr > 0 then EINVAL else if oom then ENOMEM else 0
      ensures err == 0 ==> programs == old(programs)[p := Instances(old(programs)[p].isText, n, seq(n, _ => -1), true)]
      ensures err != 0 ==> programs == old(programs)
    {
      if n <= 0 {
        return EINVAL;
      }
      if programs[p].nr > 0 {
        return EINVAL;
      }
      if oom {
        return ENOMEM;
      }
      var to := Instances(programs[p].isText, n, seq(n, _ => -1), true);
      FreeSlots(k.open, base, State(), p, to);
      programs := programs[p := to];
      return 0;
    }

    // ----- opening -----

    /** btf__new: the BTF's descriptor, or nothing open. */
    method BtfNew(k: Kernel, section: Section) returns (r: Option<int>)
      requires section.Btf? && (section.answer >= 0 ==> section.answer !in k.open)
      modifies k
      ensures r == if Good(section) then Some(section.answer) else None
      ensures k.open == if Good(section) then old(k.open) + {section.answer} else old(k.open)
    {
      var fd := k.Issue(section.answer);
      if fd == -1 {
        return None;
      }
      if !section.parses {
        k.Close(fd);
        return None;
      }
      return Some(fd);
    }

    /** A BTF section: the pointer to the BTF before is overwritten. */
    method TakeBtf(k: Kernel, section: Section, ghost base: set<nat>)
      requires Owns(k, base) && section.Btf? && (section.answer >= 0 ==> section.answer !in k.open)
      modifies k, this`btf, this`lost
      ensures Owns(k, base)
      ensures k.open == if Good(section) then old(k.open) + {section.answer} else old(k.open)
      ensures btf == if Good(section) then Some(section.answer) else None
      ensures lost == old(lost) + if old(btf).Some? then [old(btf).value] else []
    {
      ghost var s, open := State(), k.open;
      var r := BtfNew(k, section);
      if btf.Some? {
        lost := lost + [btf.value];
      }
      btf := r;
      BtfSwap(s, btf);
      IssueBalances(open, base, s, State(), if btf.Some? then btf.value else -1);
    }

    method AddProgram(k: Kernel, isText: bool, ghost base: set<nat>)
      requires Owns(k, base) && Idle(programs)
      modifies this`programs
      ensures Owns(k, base) && Idle(programs)
      ensures programs == old(programs) + [Instances(isText, -1, [], false)]
    {
      ghost var s := State();
      programs := programs + [Instances(isText, -1, [], false)];
      SameCount(k.open, base, s, State()) by {
        forall fd: int | fd >= 0
          ensures HeldBy(s.programs, fd) == HeldBy(programs, fd)
        {
          IdleHoldsNothing(s.programs, fd);
          IdleHoldsNothing(programs, fd);
        }
      }
    }

    /** One section. */
    method TakeSection(k: Kernel, section: Section, ghost base: set<nat>) returns (err: int)
      requires Owns(k, base) && Idle(programs)
      requires section.Btf? && section.answer >= 0 ==> section.answer !in k.open
      modifies k, this`btf, this`lost, this`programs
      ensures Owns(k, base) && Idle(programs)
      ensures err == 0 <==> !Fails(section)
      ensures programs == old(programs) + if Fails(section) then [] else Brought(section)
      ensures k.open == if Good(section) then old(k.open) + {section.answer} else old(k.open)
      ensures btf == BtfAfter(old(btf), [section]) && lost == old(lost) + LostBy(old(btf), [section])
    {
      if Fails(section) {
        return -1;
      }
      err := 0;
      match section
      case Btf(_, _) => TakeBtf(k, section, base);
      case Code(isText, _) => AddProgram(k, isText, base);
      case Other(_) =>
    }

    /** Before section `i` of the loop, which started with the programs `was`. */
    ghost predicate Midway(k: Kernel, ss: seq<Section>, i: nat, was: seq<Instances>, base: set<nat>)
      requires i <= |ss|
      reads this, k
    {
      Owns(k, base) && Idle(programs) && AllPass(ss[..i]) && NewAnswers(ss[i..], k.open) &&
      Collected(ss, i, btf, lost) && ProgramsSoFar(programs, was, ss, i)
    }

    /** One turn. */
    method TakeNext(k: Kernel, ss: seq<Section>, i: nat, ghost was: seq<Instances>, ghost base: set<nat>)
      returns (err: int)
      requires i < |ss| && Midway(k, ss, i, was, base)
      modifies k, this`btf, this`lost, this`programs
      ensures err == 0 <==> !Fails(ss[i])
      ensures err == 0 ==> Midway(k, ss, i + 1, was, base)
      ensures err != 0 ==>
        Owns(k, base) && Idle(programs) && btf == BtfAfter(None, ss) && lost == LostBy(None, ss) &&
        programs == was + NewPrograms(CodeOf(ss))
    {
      CollectedStep(ss, i, btf, lost, k.open);
      ProgramsStep(programs, was, ss, i);
      assert ss[..i + 1] == ss[..i] + [ss[i]];
      err := TakeSection(k, ss[i], base);
    }

    /** The loop of bpf_object__elf_collect. */
    method CollectSections(k: Kernel, ss: seq<Section>, ghost base: set<nat>) returns (err: int)
      requires Owns(k, base) && Idle(programs) && lost == [] && btf == None && NewAnswers(ss, k.open)
      modifies k, this`btf, this`lost, this`programs
      ensures Owns(k, base) && Idle(programs)
      ensures btf == BtfAfter(None, ss) && lost == LostBy(None, ss)
      ensures err == 0 <==> AllPass(ss)
      ensures programs == old(programs) + NewPrograms(CodeOf(ss))
    {
      ghost var was := programs;
      assert ss[0..] == ss;
      for i := 0 to |ss|
        invariant Midway(k, ss, i, was, base)
      {
        err := TakeNext(k, ss, i, was, base);
        if err != 0 {
          return;
        }
      }
      assert ss[..|ss|] == ss && ss[|ss|..] == [] && NewPrograms([]) == [];
      return 0;
    }

    /** bpf_object__init_maps: all slots start free. */
    method InitMaps(k: Kernel, n: nat, ghost base: set<nat>)
      requires Owns(k, base) && maps == []
      modifies this`maps
      ensures Owns(k, base) && AllFree(maps) && |maps| == n
    {
      ghost var s := State();
      maps := seq(n, _ => -1);
      SameCount(k.open, base, s, State()) by {
        forall fd: int | fd >= 0
          ensures Held(s.maps, fd) == Held(maps, fd)
        {
          FreeHoldsNothing(maps, fd);
        }
      }
    }

    /** bpf_object__elf_finish: nothing happens unless the ELF library accepted the file. */
    method ElfFinish(k: Kernel, ghost base: set<nat>)
      requires Owns(k, base)
      modifies k, this`elf, this`elfFd
      ensures Owns(k, base) && !elf
      ensures elfFd == if old(elf) then -1 else old(elfFd)
    {
      if !elf {
        return;
      }
      elf := false;
      CloseElf(k, base);
    }

    method CloseElf(k: Kernel, ghost base: set<nat>)
      requires Owns(k, base)
      modifies k, this`elfFd
      ensures Owns(k, base) && elfFd == -1
    {
      ghost var s := State();
      CloseBalances(k.open, base, s, s.(elfFd := -1), elfFd);
      elfFd := k.Zclose(elfFd);
    }

    /** bpf_object__elf_init. */
    method ElfInit(k: Kernel, s: Script, ghost base: set<nat>) returns (err: int)
      requires Owns(k, base) && NewScript(s, k.open) && elfFd == -1 && !elf
      modifies k, this`elf, this`elfFd
      ensures Owns(k, base) && NewAnswers(s.sections, k.open)
      ensures err == 0 <==> Opens(s)
      ensures err == 0 ==> elf
      ensures err != 0 ==> !elf && elfFd == if FileStaysOpen(s) then s.path.value else -1
    {
      if s.path.Some? {
        ghost var was, open := State(), k.open;
        elfFd := k.Issue(s.path.value);
        IssueBalances(open, base, was, State(), elfFd);
        if elfFd < 0 {
          return -1;
        }
      }
      elf := s.begins;
      if !elf || !s.valid {
        ElfFinish(k, base);
        return -1;
      }
      return 0;
    }

    // ----- closing -----

    /** With the object's memory the slot of the ELF descriptor goes. */
    method Free(k: Kernel, ghost base: set<nat>)
      requires Owns(k, base) && Unloaded() && btf == None
      modifies this`elfFd, this`lost
      ensures lost == old(lost) + if old(elfFd) >= 0 then [old(elfFd)] else []
      ensures k.open == base + SetOf(lost) && base !! SetOf(lost)
    {
      if elfFd >= 0 {
        ForgetElf(k.open, base, State());
        lost := lost + [elfFd];
        elfFd := -1;
      }
      NothingHeld(k.open, base, State());
    }

    /** bpf_object__close. */
    method Close(k: Kernel, ghost base: set<nat>)
      requires Owns(k, base)
      modifies k, this
      ensures lost == old(lost) + if !old(elf) && old(elfFd) >= 0 then [old(elfFd)] else []
      ensures k.open == base + SetOf(lost) && base !! SetOf(lost)
    {
      ElfFinish(k, base);
      Unload(k, base);
      FreeBtf(k, base);
      UnloadPrograms(k, base);  // once more, by bpf_program__exit
      Free(k, base);
    }

    /** btf__free. */
    method FreeBtf(k: Kernel, ghost base: set<nat>)
      requires Owns(k, base)
      modifies k, this`btf
      ensures Owns(k, base) && btf == None
    {
      if btf.Some? {
        ghost var s := State();
        CloseBalances(k.open, base, s, s.(btf := None), btf.value);
        k.Close(btf.value);
        btf := None;
      }
    }
  }

  /** Before section `i`: the programs so far, and those of the code sections to come. */
  predicate ProgramsSoFar(programs: seq<Instances>, was: seq<Instances>, ss: seq<Section>, i: nat)
    requires i <= |ss|
  {
    programs + NewPrograms(CodeOf(ss[i..])) == was + NewPrograms(CodeOf(ss))
  }

  lemma ProgramsStep(programs: seq<Instances>, was: seq<Instances>, ss: seq<Section>, i: nat)
    requires i < |ss| && ProgramsSoFar(programs, was, ss, i)
    ensures Fails(ss[i]) ==> programs == was + NewPrograms(CodeOf(ss)) && !AllPass(ss)
    ensures !Fails(ss[i]) ==> ProgramsSoFar(programs + Brought(ss[i]), was, ss, i + 1)
  {
    CodeStep(ss, i);
    if Fails(ss[i]) {
      assert programs + [] == programs;
    } else {
      Regroup(programs, Brought(ss[i]), NewPrograms(CodeOf(ss[i + 1..])));
    }
  }

  lemma CodeStep(ss: seq<Section>, i: nat)
    requires i < |ss|
    ensures NewPrograms(CodeOf(ss[i..]))
         == if Fails(ss[i]) then [] else Brought(ss[i]) + NewPrograms(CodeOf(ss[i + 1..]))
  {
    assert ss[i..][0] == ss[i] && ss[i..][1..] == ss[i + 1..];
  }

  lemma Regroup<T>(a: seq<T>, b: seq<T>, c: seq<T>)
    ensures a + (b + c) == a + b + c
  {
  }

  /** Before section `i`: what the object has and lost, and what the rest will bring, is what all sections bring. */
  ghost predicate Collected(ss: seq<Section>, i: nat, btf: Option<int>, lost: seq<int>)
    requires i <= |ss|
  {
    BtfAfter(btf, ss[i..]) == BtfAfter(None, ss) && lost + LostBy(btf, ss[i..]) == LostBy(None, ss)
  }

  lemma CollectedStep(ss: seq<Section>, i: nat, btf: Option<int>, lost: seq<int>, open: set<nat>)
    requires i < |ss| && Collected(ss, i, btf, lost) && NewAnswers(ss[i..], open)
    ensures ss[i].Btf? && ss[i].answer >= 0 ==> ss[i].answer !in open
    ensures
      var btf', lost' := BtfAfter(btf, [ss[i]]), lost + LostBy(btf, [ss[i]]);
      if Fails(ss[i]) then btf' == BtfAfter(None, ss) && lost' == LostBy(None, ss)
      else Collected(ss, i + 1, btf', lost')
    ensures NewAnswers(ss[i + 1..], if Good(ss[i]) then open + {ss[i].answer} else open)
  {
    var rest := ss[i..];
    assert rest[0] == ss[i] && rest[1..] == ss[i + 1..];
    NewAnswersStep(rest, open);
    SectionStep(btf, rest);
  }

  // ----- slot changes -----

  /** The descriptor a BTF slot loses stays accounted for as lost. */
  lemma BtfSwap(s: Slots, btf: Option<int>)
    requires (s.btf.Some? ==> s.btf.value >= 0) && (btf.Some? ==> btf.value >= 0)
    ensures
      var t := s.(btf := btf, lost := if s.btf.Some? then s.lost + [s.btf.value] else s.lost);
      Swapped(s, t, -1, if btf.Some? then btf.value else -1)
  {
    if s.btf.Some? {
      forall fd: int | fd >= 0
        ensures Held(s.lost + [s.btf.value], fd) == Held(s.lost, fd) + Bit(s.btf.value == fd)
      {
        HeldAppend(s.lost, s.btf.value, fd);
      }
    }
  }

  lemma {:induction false} HeldAppend(slots: seq<int>, x: int, fd: int)
    ensures Held(slots + [x], fd) == Held(slots, fd) + Bit(x == fd)
  {
    if |slots| > 0 {
      assert (slots + [x])[1..] == slots[1..] + [x];
      HeldAppend(slots[1..], x, fd);
    }
  }

  lemma ForgetElf(open: set<nat>, base: set<nat>, s: Slots)
    requires Balanced(open, base, s) && s.elfFd >= 0
    ensures Balanced(open, base, s.(elfFd := -1, lost := s.lost + [s.elfFd]))
  {
    SameCount(open, base, s, s.(elfFd := -1, lost := s.lost + [s.elfFd])) by {
      forall fd: int | fd >= 0
        ensures Count(s, fd) == Count(s.(elfFd := -1, lost := s.lost + [s.elfFd]), fd)
      {
        HeldAppend(s.lost, s.elfFd, fd);
      }
    }
  }

  lemma SameCount(open: set<nat>, base: set<nat>, s: Slots, t: Slots)
    requires Balanced(open, base, s) && forall fd :: fd >= 0 ==> Count(s, fd) == Count(t, fd)
    ensures Balanced(open, base, t)
  {
    forall fd: int | fd >= 0
      ensures Bit(fd in open) == Bit(fd in base) + Count(t, fd)
    {
      assert Bit(fd in open) == Bit(fd in base) + Count(s, fd);
    }
  }

  lemma SectionStep(btf: Option<int>, ss: seq<Section>)
    requires |ss| > 0
    ensures Fails(ss[0]) ==> BtfAfter(btf, ss) == BtfAfter(btf, [ss[0]]) && LostBy(btf, ss) == LostBy(btf, [ss[0]])
    ensures !Fails(ss[0]) ==>
      BtfAfter(btf, ss) == BtfAfter(BtfAfter(btf, [ss[0]]), ss[1..]) &&
      LostBy(btf, ss) == LostBy(btf, [ss[0]]) + LostBy(BtfAfter(btf, [ss[0]]), ss[1..])
  {
    assert [ss[0]][1..] == [];
  }

  lemma NewAnswersStep(ss: seq<Section>, open: set<nat>)
    requires NewAnswers(ss, open) && |ss| > 0
    ensures NewAnswers(ss[1..], if Good(ss[0]) then open + {ss[0].answer} else open)
  {
    assert forall i :: 0 <= i < |ss[1..]| ==> ss[1..][i] == ss[i + 1];
  }

  // ----- sessions -----

  /** What a user can do with an open object. */
  datatype Op = DoLoad(w: World) | DoUnload | DoPrep(p: nat, n: int, oom: bool)

  method Perform(obj: BpfObject, k: Kernel, op: Op, ghost base: set<nat>)
    requires obj.Owns(k, base) && obj.Ready()
    modifies k, obj`maps, obj`programs, obj`loaded
    ensures obj.Owns(k, base) && obj.Ready()
  {
    match op
    case DoLoad(w) => var _ := obj.Load(k, w, base);
    case DoUnload => obj.Unload(k, base);
    case DoPrep(p, n, oom) =>
      if p < |obj.programs| {
        var _ := obj.SetPrep(k, p, n, oom, base);
      }
  }

  /** The object holds what the file does: a program for every code section, in file order, and its maps and BTF. */
  predicate Holds(obj: BpfObject, s: Script)
    reads obj
  {
    s.maps.Some? && |obj.maps| == s.maps.value && obj.programs == NewPrograms(CodeOf(s.sections)) &&
    obj.btf == BtfAfter(None, s.sections)
  }

  /** The steps of __bpf_object__open behind the ELF header. */
  method Collect(obj: BpfObject, k: Kernel, s: Script, ghost base: set<nat>) returns (err: int)
    requires obj.Owns(k, base) && obj.programs == [] && obj.maps == [] && obj.lost == [] && obj.btf == None
    requires NewAnswers(s.sections, k.open)
    modifies k, obj`btf, obj`lost, obj`programs, obj`maps
    ensures obj.Owns(k, base) && obj.Unloaded() && obj.lost == LostBy(None, s.sections)
    ensures err == 0 <==> AllPass(s.sections) && s.maps.Some? && s.rest
    ensures err == 0 ==> Holds(obj, s)
  {
    err := obj.CollectSections(k, s.sections, base);
    if err != 0 {
      return;
    }
    if s.maps.None? {
      return EINVAL;
    }
    obj.InitMaps(k, s.maps.value, base);
    return if s.rest then 0 else EINVAL;
  }

  /** __bpf_object__open, but for closing the object when it fails. */
  method Open(obj: BpfObject, k: Kernel, s: Script, ghost base: set<nat>) returns (err: int)
    requires obj.Owns(k, base) && NewScript(s, k.open) && !obj.elf && obj.State() == Slots(-1, None, [], [], [])
    modifies k, obj
    ensures obj.Owns(k, base) && obj.Unloaded() && obj.loaded == old(obj.loaded)
    ensures obj.lost + (if !obj.elf && obj.elfFd >= 0 then [obj.elfFd] else []) == Leaks(s)
    ensures err == 0 ==> !obj.elf && obj.elfFd == -1
    ensures err == 0 <==> Complete(s)
    ensures err == 0 ==> Holds(obj, s)
  {
    err := obj.ElfInit(k, s, base);
    if err == 0 {
      err := Collect(obj, k, s, base);
      if err == 0 {
        obj.ElfFinish(k, base);
      }
    }
  }

  /** Each of `n` maps is granted, at the second call only if the first one named the object's BTF. */
  predicate MapsGranted(btf: Option<int>, n: nat, w: World) {
    forall i :: 0 <= i < n && w.maps(i).refused ==> btf.Some? && w.maps(i).withBtf && !w.maps(i).refusedAgain
  }

  lemma MapsGrantedIff(btf: Option<int>, n: nat, w: World)
    ensures MapsGranted(btf, n, w) <==> forall i :: 0 <= i < n ==> MapGranted(btf, w, i)
  {
    if forall i :: 0 <= i < n ==> MapGranted(btf, w, i) {
      forall i | 0 <= i < n && w.maps(i).refused
        ensures btf.Some? && w.maps(i).withBtf && !w.maps(i).refusedAgain
      {
        assert MapGranted(btf, w, i);
      }
    }
  }

  /** Every code section but `.text` can be loaded. */
  predicate CodeLoads(s: Script, w: World) {
    forall p :: 0 <= p < |CodeOf(s.sections)| && !CodeOf(s.sections)[p] ==>
      !w.oom(p) && w.instances(p, 0).attempt.insns && !w.instances(p, 0).attempt.refused
  }

  lemma NewProgramsLoad(code: seq<bool>, w: World)
    ensures AllLoad(NewPrograms(code), w, |code|) <==>
            forall p :: 0 <= p < |code| && !code[p] ==> !w.oom(p) && Attained(w.instances(p, 0).attempt)
  {
    assert forall p :: 0 <= p < |code| ==>
        (ProgramLoads(NewPrograms(code)[p], w, p) <==> !w.oom(p) && Attained(w.instances(p, 0).attempt));
  }

  /**
   Opened and loaded, exactly if the file is in order and the kernel grants all that is asked for:
   every map has a descriptor then, and so has the program of every code section but `.text`.
   */
  method OpenAndLoad(obj: BpfObject, k: Kernel, s: Script, w: World, ghost base: set<nat>) returns (err: int)
    requires obj.Owns(k, base) && NewScript(s, k.open) && !obj.elf && !obj.loaded
    requires obj.State() == Slots(-1, None, [], [], [])
    modifies k, obj
    ensures obj.Owns(k, base)
    ensures err == 0 <==>
      Complete(s) && MapsGranted(BtfAfter(None, s.sections), s.maps.value, w) && w.relocates == 0 && CodeLoads(s, w)
    ensures err == 0 ==>
      Complete(s) && |obj.maps| == s.maps.value && |obj.programs| == |CodeOf(s.sections)| &&
      (forall i :: 0 <= i < |obj.maps| ==> obj.maps[i] >= 0) &&
      forall p :: 0 <= p < |obj.programs| && !CodeOf(s.sections)[p] ==>
        |obj.programs[p].fds| == 1 && obj.programs[p].fds[0] >= 0
  {
    err := Open(obj, k, s, base);
    if err == 0 {
      MapsGrantedIff(obj.btf, |obj.maps|, w);
      NewProgramsLoad(CodeOf(s.sections), w);
      err := obj.Load(k, w, base);
    }
  }

  /** Any operations in any order. */
  method Use(obj: BpfObject, k: Kernel, ops: seq<Op>, ghost base: set<nat>)
    requires obj.Owns(k, base) && obj.Ready()
    modifies k, obj`maps, obj`programs, obj`loaded
    ensures obj.Owns(k, base)
  {
    for i := 0 to |ops|
      invariant obj.Owns(k, base) && obj.Ready()
    {
      Perform(obj, k, ops[i], base);
    }
  }

  /**
   A whole session: open, any operations in any order, close.  Whatever fails on the way, the
   process ends with the descriptors it had and those that leak.
   */
  method Session(k: Kernel, s: Script, ops: seq<Op>) returns (err: int)
    requires NewScript(s, k.open)
    modifies k
    ensures k.open == old(k.open) + SetOf(Leaks(s)) && old(k.open) !! SetOf(Leaks(s))
  {
    ghost var base := k.open;
    var obj := new BpfObject();
    err := Open(obj, k, s, base);
    if err == 0 {
      Use(obj, k, ops, base);
    }
    obj.Close(k, base);
  }

  /** Every BTF section the kernel takes is the last of them, among the sections that are reached. */
  predicate LastBtfOnly(ss: seq<Section>)
    decreases |ss|
  {
    |ss| > 0 && !Fails(ss[0]) ==> (Good(ss[0]) ==> !ReachesBtf(ss[1..])) && LastBtfOnly(ss[1..])
  }

  predicate ReachesBtf(ss: seq<Section>)
    decreases |ss|
  {
    |ss| > 0 && !Fails(ss[0]) && (ss[0].Btf? || ReachesBtf(ss[1..]))
  }

  lemma {:induction false} NothingLostIff(btf: Option<int>, ss: seq<Section>)
    ensures LostBy(btf, ss) == [] <==> LastBtfOnly(ss) && (btf.Some? ==> !ReachesBtf(ss))
    decreases |ss|
  {
    if |ss| > 0 && !Fails(ss[0]) {
      if ss[0].Btf? {
        NothingLostIff(if Good(ss[0]) then Some(ss[0].answer) else None, ss[1..]);
      } else {
        NothingLostIff(btf, ss[1..]);
      }
    }
  }

  /**
   A session leaves nothing open exactly if the ELF library does not refuse a file that could be
   opened, and no BTF section follows one that the kernel took.
   */
  lemma NothingLeaksIff(s: Script)
    ensures Leaks(s) == [] <==> !FileStaysOpen(s) && (Opens(s) ==> LastBtfOnly(s.sections))
  {
    NothingLostIff(None, s.sections);
  }

  /** A file that libelf refuses, and a BTF section behind another: either leaks descriptor 3. */
  lemma LeakExamples()
    ensures
      var refused := Script(Some(3), false, true, [], Some(0), true);
      NewScript(refused, {0, 1, 2}) && Leaks(refused) == [3]
    ensures
      var twice := Script(None, true, true, [Btf(3, true), Btf(4, true)], Some(0), true);
      NewScript(twice, {0, 1, 2}) && Leaks(twice) == [3]
  {
    var ss := [Btf(3, true), Btf(4, true)];
    assert ss[1..] == [Btf(4, true)] && ss[1..][1..] == [];
    assert LostBy(Some(4), []) == [];
    assert LostBy(Some(3), [Btf(4, true)]) == [3] + LostBy(Some(4), [Btf(4, true)][1..]);
  }
}
