/**
 The descriptors of a BPF object from open to close.  The kernel, the memory allocator, the
 ELF library and the user's preprocessors may fail whenever they are called.
 */
module FdLifecycle {
  import opened Wrappers

  // ----- accounts -----

  function Bit(b: bool): nat {
    if b then 1 else 0
  }

  /** How many slots hold the descriptor. */
  function Held(slots: seq<int>, fd: int): nat {
    if |slots| == 0 then 0 else Bit(slots[0] == fd) + Held(slots[1..], fd)
  }

  /** The instances of a program; `nr` is -1 while no slots are allocated. */
  datatype Instances = Instances(isText: bool, nr: int, fds: seq<int>, prep: bool)

  predicate WellFormed(p: Instances) {
    if p.nr == -1 then p.fds == [] else p.nr > 0 && |p.fds| == p.nr
  }

  predicate AllWellFormed(ps: seq<Instances>) {
    forall i :: 0 <= i < |ps| ==> WellFormed(ps[i])
  }

  function HeldBy(ps: seq<Instances>, fd: int): nat {
    if |ps| == 0 then 0 else Held(ps[0].fds, fd) + HeldBy(ps[1..], fd)
  }

  lemma {:induction false} HeldStore(slots: seq<int>, i: nat, x: int, fd: int)
    requires i < |slots|
    ensures Held(slots[i := x], fd) + Bit(slots[i] == fd) == Held(slots, fd) + Bit(x == fd)
  {
    if i > 0 {
      HeldStore(slots[1..], i - 1, x, fd);
      assert slots[i := x][1..] == slots[1..][i - 1 := x];
    } else {
      assert slots[0 := x][1..] == slots[1..];
    }
  }

  lemma {:induction false} HeldByStore(ps: seq<Instances>, i: nat, p: Instances, fd: int)
    requires i < |ps|
    ensures HeldBy(ps[i := p], fd) + Held(ps[i].fds, fd) == HeldBy(ps, fd) + Held(p.fds, fd)
  {
    if i > 0 {
      HeldByStore(ps[1..], i - 1, p, fd);
      assert ps[i := p][1..] == ps[1..][i - 1 := p];
    } else {
      assert ps[0 := p][1..] == ps[1..];
    }
  }

  predicate AllFree(slots: seq<int>) {
    forall i :: 0 <= i < |slots| ==> slots[i] == -1
  }

  predicate Idle(ps: seq<Instances>) {
    forall i :: 0 <= i < |ps| ==> AllFree(ps[i].fds)
  }

  lemma {:induction false} FreeHoldsNothing(slots: seq<int>, fd: int)
    requires AllFree(slots) && fd >= 0
    ensures Held(slots, fd) == 0
  {
    if |slots| > 0 {
      FreeHoldsNothing(slots[1..], fd);
    }
  }

  lemma {:induction false} IdleHoldsNothing(ps: seq<Instances>, fd: int)
    requires Idle(ps) && fd >= 0
    ensures HeldBy(ps, fd) == 0
  {
    if |ps| > 0 {
      IdleHoldsNothing(ps[1..], fd);
      FreeHoldsNothing(ps[0].fds, fd);
    }
  }

  // ----- the kernel -----

  /** The process's descriptor table. */
  class Kernel {
    var open: set<nat>

    constructor (open: set<nat>)
      ensures this.open == open
    {
      this.open := open;
    }

    /** The kernel answers with a descriptor that is not in use, or refuses: -1. */
    method Issue(answer: int) returns (fd: int)
      modifies this
      ensures fd == if answer >= 0 && answer !in old(open) then answer else -1
      ensures open == if fd >= 0 then old(open) + {fd} else old(open)
    {
      if answer < 0 || answer in open {
        return -1;
      }
      open := open + {answer};
      return answer;
    }

    /** The kernel refuses, or gives the lowest descriptor that is not in use. */
    method Grant(refuses: bool) returns (fd: int)
      modifies this
      ensures
        if refuses then fd == -1 && open == old(open)
        else fd >= 0 && fd !in old(open) && open == old(open) + {fd} && forall x: nat :: x < fd ==> x in old(open)
    {
      if refuses {
        return -1;
      }
      fd := 0;
      ghost var rest := open;
      while fd in open
        invariant fd >= 0 && forall x: nat :: x in open ==> if x < fd then x !in rest else x in rest
        invariant forall x: nat :: x < fd ==> x in open
        decreases |rest|
      {
        rest := rest - {fd};
        fd := fd + 1;
      }
      open := open + {fd};
    }

    /** close; closing what is not open would be an error. */
    method Close(fd: int)
      requires fd in open
      modifies this
      ensures open == old(open) - {fd}
    {
      open := open - {fd};
    }

    /** zclose; the slot's new value is -1. */
    method Zclose(fd: int) returns (slot: int)
      requires fd >= 0 ==> fd in open
      modifies this
      ensures slot == -1 && open == if fd >= 0 then old(open) - {fd} else old(open)
    {
      if fd >= 0 {
        Close(fd);
      }
      return -1;
    }
  }

  // ----- the object -----

  /** What an object's fields hold. */
  datatype Slots = Slots(elfFd: int, btf: Option<int>, maps: seq<int>, programs: seq<Instances>, lost: seq<int>)

  /** How often the descriptor is accounted for; `lost` are descriptors that no slot holds any more. */
  function Count(s: Slots, fd: int): nat {
    Bit(s.elfFd == fd) + Bit(s.btf == Some(fd)) + Held(s.maps, fd) + HeldBy(s.programs, fd) + Held(s.lost, fd)
  }

  /** Every open descriptor is somebody else's, or accounted for exactly once; nothing else is. */
  ghost predicate Balanced(open: set<nat>, base: set<nat>, s: Slots) {
    forall fd :: fd >= 0 ==> Bit(fd in open) == Bit(fd in base) + Count(s, fd)
  }

  /** So no two map slots hold the same descriptor, and none holds one that is closed. */
  lemma MapsAreDistinct(open: set<nat>, base: set<nat>, s: Slots, i: nat, j: nat)
    requires Balanced(open, base, s) && i < j < |s.maps| && s.maps[i] >= 0
    ensures s.maps[i] in open && s.maps[i] !in base && s.maps[i] != s.maps[j]
  {
    var fd := s.maps[i];
    HeldAt(s.maps, i, fd);
    if s.maps[j] == fd {
      HeldTwice(s.maps, i, j, fd);
    }
    assert Bit(fd in open) == Bit(fd in base) + Count(s, fd);
  }

  lemma {:induction false} HeldAt(slots: seq<int>, i: nat, fd: int)
    requires i < |slots| && slots[i] == fd
    ensures Held(slots, fd) >= 1
  {
    if i > 0 {
      HeldAt(slots[1..], i - 1, fd);
    }
  }

  lemma {:induction false} HeldTwice(slots: seq<int>, i: nat, j: nat, fd: int)
    requires i < j < |slots| && slots[i] == fd && slots[j] == fd
    ensures Held(slots, fd) >= 2
  {
    if i > 0 {
      HeldTwice(slots[1..], i - 1, j - 1, fd);
    } else {
      HeldAt(slots[1..], j - 1, fd);
    }
  }

  /** Between the two slot states only `x` has left one slot for `y`; negative values are no descriptors. */
  ghost predicate Swapped(s: Slots, t: Slots, x: int, y: int) {
    forall fd :: fd >= 0 ==> Count(t, fd) + Bit(x == fd) == Count(s, fd) + Bit(y == fd)
  }

  lemma CloseBalances(open: set<nat>, base: set<nat>, s: Slots, t: Slots, fd: int)
    requires Balanced(open, base, s) && Swapped(s, t, fd, -1)
    ensures fd >= 0 ==> fd in open
    ensures Balanced(if fd >= 0 then open - {fd} else open, base, t)
  {
    if fd >= 0 {
      assert Count(t, fd) + 1 == Count(s, fd);
      assert Bit(fd in open) == Bit(fd in base) + Count(s, fd);
    }
    var after := if fd >= 0 then open - {fd} else open;
    forall x: int | x >= 0
      ensures Bit(x in after) == Bit(x in base) + Count(t, x)
    {
      assert Bit(x in open) == Bit(x in base) + Count(s, x);
    }
  }

  lemma IssueBalances(open: set<nat>, base: set<nat>, s: Slots, t: Slots, fd: int)
    requires Balanced(open, base, s) && Swapped(s, t, -1, fd) && (fd !in open || fd < 0)
    ensures Balanced(if fd >= 0 then open + {fd} else open, base, t)
  {
    var after := if fd >= 0 then open + {fd} else open;
    forall x: int | x >= 0
      ensures Bit(x in after) == Bit(x in base) + Count(t, x)
    {
      assert Bit(x in open) == Bit(x in base) + Count(s, x);
    }
  }

  lemma MapSwap(s: Slots, i: nat, y: int)
    requires i < |s.maps|
    ensures Swapped(s, s.(maps := s.maps[i := y]), s.maps[i], y)
  {
    forall fd: int | fd >= 0
      ensures Count(s.(maps := s.maps[i := y]), fd) + Bit(s.maps[i] == fd) == Count(s, fd) + Bit(y == fd)
    {
      HeldStore(s.maps, i, y, fd);
    }
  }

  function SetFd(s: Slots, p: nat, i: nat, y: int): Slots
    requires p < |s.programs| && i < |s.programs[p].fds|
  {
    s.(programs := s.programs[p := s.programs[p].(fds := s.programs[p].fds[i := y])])
  }

  lemma ProgSwap(s: Slots, p: nat, i: nat, y: int)
    requires p < |s.programs| && i < |s.programs[p].fds|
    ensures Swapped(s, SetFd(s, p, i, y), s.programs[p].fds[i], y)
  {
    forall fd: int | fd >= 0
      ensures Count(SetFd(s, p, i, y), fd) + Bit(s.programs[p].fds[i] == fd) == Count(s, fd) + Bit(y == fd)
    {
      HeldStore(s.programs[p].fds, i, y, fd);
      HeldByStore(s.programs, p, s.programs[p].(fds := s.programs[p].fds[i := y]), fd);
    }
  }

  /** Free slots may be allocated and freed. */
  lemma FreeSlots(open: set<nat>, base: set<nat>, s: Slots, p: nat, to: Instances)
    requires Balanced(open, base, s) && p < |s.programs| && AllFree(s.programs[p].fds) && AllFree(to.fds)
    ensures Balanced(open, base, s.(programs := s.programs[p := to]))
  {
    var t := s.(programs := s.programs[p := to]);
    forall fd: int | fd >= 0
      ensures Bit(fd in open) == Bit(fd in base) + Count(t, fd)
    {
      HeldByStore(s.programs, p, to, fd);
      FreeHoldsNothing(s.programs[p].fds, fd);
      FreeHoldsNothing(to.fds, fd);
      assert Bit(fd in open) == Bit(fd in base) + Count(s, fd);
    }
  }

  /** An object none of whose slots holds a descriptor, and that has lost none, has left the process as it was. */
  lemma NothingHeld(open: set<nat>, base: set<nat>, s: Slots)
    requires Balanced(open, base, s) && s.elfFd == -1 && s.btf == None && AllFree(s.maps) && Idle(s.programs)
    ensures open == base + SetOf(s.lost)
    ensures base !! SetOf(s.lost)
  {
    forall fd: nat
      ensures fd in open <==> fd in base || fd in SetOf(s.lost)
      ensures fd in base ==> fd !in SetOf(s.lost)
    {
      FreeHoldsNothing(s.maps, fd);
      IdleHoldsNothing(s.programs, fd);
      HeldIff(s.lost, fd);
      assert Bit(fd in open) == Bit(fd in base) + Count(s, fd);
    }
  }

  function SetOf(slots: seq<int>): set<nat> {
    set fd | fd in slots && fd >= 0
  }

  lemma {:induction false} HeldIff(slots: seq<int>, fd: int)
    ensures Held(slots, fd) > 0 <==> fd in slots
  {
    if |slots| > 0 {
      HeldIff(slots[1..], fd);
      assert slots == [slots[0]] + slots[1..];
    }
  }
}
