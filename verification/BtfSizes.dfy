/** From the fields of encoded types to their resolved sizes: parsing and resolving put together. */
module BtfSizes {
  import opened Wrappers
  import opened Bytes
  import opened Btf
  import opened BtfTypes
  import opened BtfCodec
  import opened BtfResolve

  // ----- types as a graph, from their fields -----

  /** What a type is to the resolver: its own size, the type it stands for, or a number of elements. */
  function Seen(t: Type): TypeView {
    match t
    case Int(size, _) => Sized(size)
    case Ptr(_) => Sized(8)
    case Array(_, elem, _, n) => ArrayOf(elem, n)
    case Struct(size, _) => Sized(size)
    case Union(size, _) => Sized(size)
    case Enum(size, _) => Sized(size)
    case Fwd(_) => Nothing
    case Typedef(to) => Modifier(to)
    case Volatile(to) => Modifier(to)
    case Const(to) => Modifier(to)
    case Restrict(to) => Modifier(to)
  }

  /** Ids count the types from 1; id 0 is void. */
  function TypeGraph(es: seq<Entry>): Graph {
    (id: nat) => if 0 < id <= |es| then Seen(es[id - 1].t) else Nothing
  }

  /** Where the walk of the resolver leaves 32 bits before it meets anything else. */
  predicate Exceeds(g: Graph, id: nat, acc: nat, fuel: nat)
    decreases fuel
  {
    fuel > 0 &&
    match g(id)
    case Sized(size) => acc * size > UINT32_MAX
    case Modifier(to) => Exceeds(g, to, acc, fuel - 1)
    case ArrayOf(to, n) => acc * n > UINT32_MAX || Exceeds(g, to, acc * n, fuel - 1)
    case Nothing => false
    case Other => false
  }

  lemma {:induction false} WalkFails(g: Graph, id: nat, acc: nat, fuel: nat)
    ensures Walk(g, id, acc, fuel).Err? ==>
      Walk(g, id, acc, fuel).error == if Exceeds(g, id, acc, fuel) then E2BIG else EINVAL
    decreases fuel
  {
    if fuel > 0 {
      match g(id)
      case Modifier(to) => WalkFails(g, to, acc, fuel - 1);
      case ArrayOf(to, n) => WalkFails(g, to, acc * n, fuel - 1);
      case _ =>
    }
  }

  /** The walk depends on nothing but what ids stand for. */
  lemma {:induction false} SameWalk(g: Graph, h: Graph, id: nat, acc: nat, fuel: nat)
    requires forall i: nat :: g(i) == h(i)
    ensures Walk(g, id, acc, fuel) == Walk(h, id, acc, fuel)
    decreases fuel
  {
    if fuel > 0 {
      assert g(id) == h(id);
      match g(id)
      case Modifier(to) => SameWalk(g, h, to, acc, fuel - 1);
      case ArrayOf(to, n) => SameWalk(g, h, to, acc * n, fuel - 1);
      case _ =>
    }
  }

  // ----- reading types back -----

  /** Every record of the list stands in memory, where the list places it. */
  lemma {:induction false} EntryStands(mem: Memory, p: int, es: seq<Entry>, i: nat)
    requires AllEncodable(es) && i < |es| && Holds(mem, p, EncodeAll(es))
    ensures Holds(mem, Starts(es, p)[i], Encode(es[i]))
    decreases i
  {
    var next := p + |Encode(es[0])|;
    FirstOfAll(mem, p, es);
    assert Starts(es, p) == [p] + Starts(es[1..], next);
    if i > 0 {
      EntryStands(mem, next, es[1..], i - 1);
      assert Starts(es, p)[i] == Starts(es[1..], next)[i - 1] && es[i] == es[1..][i - 1];
    }
  }

  /** A word of an encoding is read back. */
  lemma WordStands(mem: Memory, p: int, x: nat)
    requires IsWord(x) && Holds(mem, p, WordBytes(x))
    ensures Word(mem, p) == x
  {
    WordBack(x);
    var b := WordBytes(x);
    assert mem(p + 0) == b[0] && mem(p + 1) == b[1] && mem(p + 2) == b[2] && mem(p + 3) == b[3];
  }

  lemma {:induction false} TailWordStands(mem: Memory, p: int, xs: seq<nat>, k: nat)
    requires AllWords(xs) && k < |xs| && Holds(mem, p, WordsBytes(xs))
    ensures Word(mem, p + 4 * k) == xs[k]
    decreases k
  {
    HoldsParts(mem, p, WordBytes(xs[0]), WordsBytes(xs[1..]));
    if k == 0 {
      WordStands(mem, p, xs[0]);
    } else {
      TailWordStands(mem, p + 4, xs[1..], k - 1);
    }
  }

  /** What the parser reads of a record are its fields. */
  lemma FieldsStand(mem: Memory, p: int, e: Entry)
    requires Encodable(e) && Holds(mem, p, Encode(e))
    ensures KindAt(mem, p) == KindOf(e.t) && VlenAt(mem, p) == CountOf(e)
    ensures Word(mem, p + 8) == SizeOrType(e.t)
    ensures Holds(mem, p + 12, WordsBytes(Tail(e.t)))
  {
    var head, tail := HeaderOf(e), WordsBytes(Tail(e.t));
    HoldsParts(mem, p, head, tail);
    HeaderReadBack(mem, p, e);
    assert head == head[..8] + WordBytes(SizeOrType(e.t));
    HoldsParts(mem, p, head[..8], WordBytes(SizeOrType(e.t)));
    WordStands(mem, p + 8, SizeOrType(e.t));
  }

  /** The resolver sees a record as its fields say. */
  lemma FieldsAreSeen(ids: seq<TypePtr>, mem: Memory, id: nat, t: Type, p: int)
    requires id < |ids| && ids[id] == Record(p)
    requires KindAt(mem, p) == KindOf(t) && Word(mem, p + 8) == SizeOrType(t)
    requires t.Array? ==> Word(mem, p + 12) == t.elem && Word(mem, p + 20) == t.n
    ensures View(ids, mem, id) == Seen(t)
  {
  }

  lemma ArrayStands(mem: Memory, p: int, t: Type)
    requires t.Array? && AllWords(Tail(t)) && Holds(mem, p + 12, WordsBytes(Tail(t)))
    ensures Word(mem, p + 12) == t.elem && Word(mem, p + 20) == t.n
  {
    TailWordStands(mem, p + 12, Tail(t), 0);
    TailWordStands(mem, p + 12, Tail(t), 2);
  }

  lemma RecordIsSeen(ids: seq<TypePtr>, mem: Memory, id: nat, e: Entry, p: int)
    requires Encodable(e) && Holds(mem, p, Encode(e)) && id < |ids| && ids[id] == Record(p)
    ensures View(ids, mem, id) == Seen(e.t)
  {
    FieldsStand(mem, p, e);
    if e.t.Array? {
      ArrayStands(mem, p, e.t);
    }
    FieldsAreSeen(ids, mem, id, e.t, p);
  }

  /** The ids of the list, one for each record in its place. */
  ghost predicate IdsOf(es: seq<Entry>, p: int, ids: seq<TypePtr>)
    requires AllEncodable(es)
  {
    |ids| == |es| + 1 && ids[0] == Void && forall i :: 1 <= i <= |es| ==> ids[i] == Record(Starts(es, p)[i - 1])
  }

  /** The ids of parsed types stand for the types of the list, in order, and for nothing else. */
  lemma ParsedAreSeen(ids: seq<TypePtr>, mem: Memory, p: int, es: seq<Entry>, id: nat)
    requires AllEncodable(es) && Holds(mem, p, EncodeAll(es)) && IdsOf(es, p, ids)
    ensures View(ids, mem, id) == TypeGraph(es)(id)
  {
    if 0 < id <= |es| {
      var at := Starts(es, p)[id - 1];
      EntryStands(mem, p, es, id - 1);
      assert ids[id] == Record(at);
      RecordIsSeen(ids, mem, id, es[id - 1], at);
    }
  }

  // ----- main result -----

  /** What a size is resolved to, in terms of the list of types. */
  ghost predicate Resolved(es: seq<Entry>, id: nat, r: Result<nat, Errno>) {
    var g := TypeGraph(es);
    (r.Ok? <==> SizeOf(g, id, 32).Some? && Fits(g, id, 1, 32)) &&
    (r.Ok? ==> Some(r.value) == SizeOf(g, id, 32)) &&
    (r.Err? ==> r.error == if Exceeds(g, id, 1, 32) then E2BIG else EINVAL)
  }

  lemma WalkResolves(es: seq<Entry>, g: Graph, id: nat)
    requires forall i: nat :: g(i) == TypeGraph(es)(i)
    ensures Resolved(es, id, Walk(g, id, 1, MAX_RESOLVE_DEPTH))
  {
    SameWalk(g, TypeGraph(es), id, 1, MAX_RESOLVE_DEPTH);
    ResolvesExactly(TypeGraph(es), id);
    WalkFails(TypeGraph(es), id, 1, MAX_RESOLVE_DEPTH);
  }

  /** With memory enough, an encoded list is parsed into a table with these ids. */
  method ParseEncoded(mem: Memory, start: int, end: int, ghost es: seq<Entry>) returns (table: TypeTable)
    requires AllEncodable(es) && 0 < |es| < 65535
    requires Holds(mem, start, EncodeAll(es)) && end == start + |EncodeAll(es)|
    ensures table.Valid() && table.types != null && IdsOf(es, start, table.Ids())
  {
    table := new TypeTable();
    var r := ParseTypeSec(table, mem, start, end, (n: nat) => false);
    ParseUndoesEncode(mem, start, es, r, table.Ids());
  }

  /**
   Parsing an encoded list of types and resolving an id of it gives the recursive size over the
   list, with memory and 32 bits enough, and otherwise the error.
   */
  method SizeOfEncoded(mem: Memory, start: int, end: int, id: nat, ghost es: seq<Entry>)
    returns (r: Result<nat, Errno>)
    requires AllEncodable(es) && 0 < |es| < 65535
    requires Holds(mem, start, EncodeAll(es)) && end == start + |EncodeAll(es)|
    ensures Resolved(es, id, r)
  {
    var table := ParseEncoded(mem, start, end, es);
    AllAreSeen(table.Ids(), mem, start, es);
    r := ResolveSize(table, mem, id);
    WalkResolves(es, GraphOf(table.Ids(), mem), id);
  }

  lemma AllAreSeen(ids: seq<TypePtr>, mem: Memory, p: int, es: seq<Entry>)
    requires AllEncodable(es) && Holds(mem, p, EncodeAll(es)) && IdsOf(es, p, ids)
    ensures forall i: nat :: GraphOf(ids, mem)(i) == TypeGraph(es)(i)
  {
    forall i: nat
      ensures GraphOf(ids, mem)(i) == TypeGraph(es)(i)
    {
      ParsedAreSeen(ids, mem, p, es, i);
    }
  }

  // ----- one of each kind -----

  function Named(t: Type): Entry {
    Entry(0, 0, 0, 0, t)
  }

  const SAMPLE: seq<Entry> := [
    Named(Array(0, 2, 3, 3)), Named(Struct(100, [])), Named(Int(4, 32)), Named(Ptr(0)), Named(Fwd(0)),
    Named(Typedef(1)), Named(Const(5)), Named(Array(0, 1, 3, 0xffff_ffff)), Named(Typedef(9)), Named(Enum(4, []))]

  lemma SampleSizes()
    ensures
      var g := TypeGraph(SAMPLE);
      SizeOf(g, 1, 32) == Some(300) && SizeOf(g, 4, 32) == Some(8) && SizeOf(g, 6, 32) == Some(300) &&
      SizeOf(g, 10, 32) == Some(4)
    ensures
      var g := TypeGraph(SAMPLE);
      SizeOf(g, 0, 32) == None && SizeOf(g, 5, 32) == None && SizeOf(g, 7, 32) == None && SizeOf(g, 11, 32) == None
    ensures Exceeds(TypeGraph(SAMPLE), 8, 1, 32)
  {
  }
}
