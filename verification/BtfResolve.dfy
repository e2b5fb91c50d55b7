/**
 The size of a BTF type: an iterative walk through modifiers and arrays with overflow
 guards and a depth bound, against the recursive definition of a type's size.
 */
module BtfResolve {
  import opened Wrappers
  import opened Bytes
  import opened Btf

  const MAX_RESOLVE_DEPTH := 32
  const UINT32_MAX := 0xffff_ffff
  const POINTER_SIZE := 8

  // ----- types as a graph -----

  /** What the resolver sees of a type id. */
  datatype TypeView =
    | Nothing                   // no such id, void, or a forward declaration
    | Sized(size: nat)          // int, struct, union, enum, pointer
    | Modifier(to: nat)         // typedef, volatile, const, restrict
    | ArrayOf(to: nat, n: nat)
    | Other

  /** Type ids and what is behind them; ids form an arbitrary, possibly cyclic graph. */
  type Graph = nat -> TypeView

  function Word(mem: Memory, p: int): nat {
    Le32(mem(p), mem(p + 1), mem(p + 2), mem(p + 3))
  }

  /** The view of an id, read from the records in memory. */
  function View(ids: seq<TypePtr>, mem: Memory, id: nat): (v: TypeView)
    ensures v.ArrayOf? ==> v.n <= UINT32_MAX
    ensures v.Sized? ==> v.size <= UINT32_MAX
  {
    if id >= |ids| || ids[id] == Void then Nothing
    else
      var p := ids[id].addr;
      var kind := KindAt(mem, p);
      if kind == KIND_FWD then Nothing
      else if kind == KIND_INT || kind == KIND_STRUCT || kind == KIND_UNION || kind == KIND_ENUM then
        Sized(Word(mem, p + 8))
      else if kind == KIND_PTR then Sized(POINTER_SIZE)
      else if kind == KIND_TYPEDEF || kind == KIND_VOLATILE || kind == KIND_CONST || kind == KIND_RESTRICT then
        Modifier(Word(mem, p + 8))
      else if kind == KIND_ARRAY then ArrayOf(Word(mem, p + TYPE_SIZE), Word(mem, p + TYPE_SIZE + 8))
      else Other
  }

  function GraphOf(ids: seq<TypePtr>, mem: Memory): Graph {
    (id: nat) => View(ids, mem, id)
  }

  /** The size of a type, exactly, if a sized type is reached within `fuel` types; the result the C code would need. */
  function SizeOf(g: Graph, id: nat, fuel: nat): Option<nat>
    decreases fuel
  {
    if fuel == 0 then None
    else
      match g(id)
      case Sized(size) => Some(size)
      case Modifier(to) => SizeOf(g, to, fuel - 1)
      case ArrayOf(to, n) =>
        var elem := SizeOf(g, to, fuel - 1);
        if elem.None? then None else Some(n * elem.value)
      case Nothing => None
      case Other => None
  }

  /** No product of array lengths met on the way, times `acc` and finally the base size, exceeds 32 bits. */
  predicate Fits(g: Graph, id: nat, acc: nat, fuel: nat)
    decreases fuel
  {
    fuel > 0 &&
    match g(id)
    case Sized(size) => acc * size <= UINT32_MAX
    case Modifier(to) => Fits(g, to, acc, fuel - 1)
    case ArrayOf(to, n) => acc * n <= UINT32_MAX && Fits(g, to, acc * n, fuel - 1)
    case Nothing => true
    case Other => true
  }

  // ----- the walk -----

  /** What the loop computes from type `id` on, with `acc` elements so far and `fuel` turns left. */
  function Walk(g: Graph, id: nat, acc: nat, fuel: nat): Result<nat, Errno>
    decreases fuel
  {
    if fuel == 0 then Err(EINVAL)
    else
      match g(id)
      case Sized(size) => if acc * size > UINT32_MAX then Err(E2BIG) else Ok(acc * size)
      case Modifier(to) => Walk(g, to, acc, fuel - 1)
      case ArrayOf(to, n) => if acc * n > UINT32_MAX then Err(E2BIG) else Walk(g, to, acc * n, fuel - 1)
      case Nothing => Err(EINVAL)
      case Other => Err(EINVAL)
  }

  /** The guard `a && b > UINT32_MAX / a` is true exactly when the product does not fit. */
  lemma Overflow(a: nat, b: nat)
    ensures a != 0 && b > UINT32_MAX / a <==> a * b > UINT32_MAX
    ensures a * b >= 0
  {
    if a != 0 {
      var q, r := UINT32_MAX / a, UINT32_MAX % a;
      assert UINT32_MAX == a * q + r;
      if b > q {
        MulMono(a, q + 1, b);
      } else {
        MulMono(a, b, q);
      }
    }
  }

  lemma MulMono(a: nat, b: nat, c: nat)
    requires b <= c
    ensures a * b <= a * c
  {
    assert a * c == a * b + a * (c - b);
  }

  /** The guarded multiplication of btf__resolve_size, for array lengths and for the final size. */
  method Multiply(nelems: nat, times: nat) returns (r: Result<nat, Errno>)
    ensures r == if nelems * times > UINT32_MAX then Err(E2BIG) else Ok(nelems * times)
  {
    Overflow(nelems, times);
    if nelems != 0 && times > UINT32_MAX / nelems {
      return Err(E2BIG);
    }
    return Ok(nelems * times);
  }

  /** The loop of btf__resolve_size, over any graph and for any depth bound. */
  method ResolveWithin(g: Graph, typeId: nat, depth: nat) returns (r: Result<nat, Errno>)
    ensures r == Walk(g, typeId, 1, depth)
  {
    var id, nelems: nat, size: int, i := typeId, 1, -1, 0;
    var v := g(id);
    while i < depth && !v.Nothing?
      invariant 0 <= i <= depth && size < 0 && v == g(id)
      invariant Walk(g, typeId, 1, depth) == Walk(g, id, nelems, depth - i)
    {
      if v.Sized? {
        size := v.size;
        break;
      }
      match v {
        case Modifier(to) =>
          id := to;
        case ArrayOf(to, n) =>
          var product := Multiply(nelems, n);
          if product.Err? {
            return product;
          }
          nelems := product.value;
          id := to;
        case Other =>
          return Err(EINVAL);
      }
      v := g(id);
      i := i + 1;
    }
    if size < 0 {
      return Err(EINVAL);
    }
    r := Multiply(nelems, size);
  }

  /** btf__resolve_size. */
  method ResolveSize(table: TypeTable, mem: Memory, typeId: nat) returns (r: Result<nat, Errno>)
    requires table.Valid() && table.types != null
    ensures r == Walk(GraphOf(table.Ids(), mem), typeId, 1, MAX_RESOLVE_DEPTH)
  {
    r := ResolveWithin(GraphOf(table.types[..table.nrTypes + 1], mem), typeId, MAX_RESOLVE_DEPTH);
  }

  // ----- main results -----

  lemma {:induction false} WalkIsScaledSize(g: Graph, id: nat, acc: nat, fuel: nat)
    ensures Walk(g, id, acc, fuel).Ok? <==> SizeOf(g, id, fuel).Some? && Fits(g, id, acc, fuel)
    ensures Walk(g, id, acc, fuel).Ok? ==>
      Walk(g, id, acc, fuel).value == acc * SizeOf(g, id, fuel).value <= UINT32_MAX
    decreases fuel
  {
    if fuel > 0 {
      match g(id)
      case Modifier(to) => WalkIsScaledSize(g, to, acc, fuel - 1);
      case ArrayOf(to, n) =>
        WalkIsScaledSize(g, to, acc * n, fuel - 1);
        if SizeOf(g, to, fuel - 1).Some? {
          Associate(acc, n, SizeOf(g, to, fuel - 1).value);
        }
      case _ =>
    }
  }

  lemma Associate(a: nat, b: nat, c: nat)
    ensures a * b * c == a * (b * c)
  {
  }

  /**
   The resolver succeeds exactly when a sized type is reached within 32 types and no
   intermediate product leaves 32 bits; then it returns the size, exactly.
   */
  lemma ResolvesExactly(g: Graph, id: nat)
    ensures Walk(g, id, 1, MAX_RESOLVE_DEPTH).Ok?
       <==> SizeOf(g, id, MAX_RESOLVE_DEPTH).Some? && Fits(g, id, 1, MAX_RESOLVE_DEPTH)
    ensures Walk(g, id, 1, MAX_RESOLVE_DEPTH).Ok? ==>
      Some(Walk(g, id, 1, MAX_RESOLVE_DEPTH).value) == SizeOf(g, id, MAX_RESOLVE_DEPTH) &&
      0 <= Walk(g, id, 1, MAX_RESOLVE_DEPTH).value <= UINT32_MAX
  {
    WalkIsScaledSize(g, id, 1, MAX_RESOLVE_DEPTH);
  }

  // ----- cycles -----

  /** The type the walk goes on to. */
  function Next(g: Graph, id: nat): Option<nat> {
    match g(id)
    case Modifier(to) => Some(to)
    case ArrayOf(to, _) => Some(to)
    case _ => None
  }

  /** The type `n` hops away. */
  function Hop(g: Graph, id: nat, n: nat): Option<nat>
    decreases n
  {
    if n == 0 then Some(id)
    else if Next(g, id).None? then None
    else Hop(g, Next(g, id).value, n - 1)
  }

  lemma {:induction false} HopSplit(g: Graph, id: nat, m: nat, n: nat)
    ensures Hop(g, id, m + n) == if Hop(g, id, m).None? then None else Hop(g, Hop(g, id, m).value, n)
    decreases m
  {
    if m > 0 && Next(g, id).Some? {
      HopSplit(g, Next(g, id).value, m - 1, n);
    }
  }

  /** On a cycle of length `len` one can hop on for ever. */
  lemma {:induction false} CycleGoesOn(g: Graph, id: nat, len: nat, n: nat)
    requires len > 0 && Hop(g, id, len) == Some(id)
    ensures Hop(g, id, n).Some?
    decreases n
  {
    if n <= len {
      HopSplit(g, id, n, len - n);
    } else {
      CycleGoesOn(g, id, len, n - len);
      HopSplit(g, id, len, n - len);
    }
  }

  /** A size needs an end: somewhere within reach the hops stop. */
  lemma {:induction false} SizeNeedsAnEnd(g: Graph, id: nat, fuel: nat)
    requires SizeOf(g, id, fuel).Some?
    ensures Hop(g, id, fuel).None?
    decreases fuel
  {
    match g(id)
    case Modifier(to) => SizeNeedsAnEnd(g, to, fuel - 1);
    case ArrayOf(to, _) => SizeNeedsAnEnd(g, to, fuel - 1);
    case _ =>
  }

  /** A type whose chain runs into a cycle has no size, and the resolver says so. */
  lemma CyclesAreErrors(g: Graph, id: nat, lead: nat, len: nat)
    requires len > 0 && Hop(g, id, lead).Some?
    requires Hop(g, Hop(g, id, lead).value, len) == Hop(g, id, lead)
    ensures Walk(g, id, 1, MAX_RESOLVE_DEPTH).Err?
  {
    var n := MAX_RESOLVE_DEPTH;
    if Walk(g, id, 1, n).Ok? {
      ResolvesExactly(g, id);
      SizeNeedsAnEnd(g, id, n);
      CycleGoesOn(g, Hop(g, id, lead).value, len, n);
      HopSplit(g, id, lead, n);
      HopSplit(g, id, n, lead);
    }
  }
}
