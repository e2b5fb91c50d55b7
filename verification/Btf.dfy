/**
 BTF type information: the table of types that grows as it is filled, and the parser
 that walks the variable-length records of the type section.
 */
module Btf {
  import opened Wrappers
  import opened Bytes

  datatype Errno = EINVAL | ENOMEM | E2BIG

  const BTF_MAX_NR_TYPES := 65535

  const KIND_INT := 1
  const KIND_PTR := 2
  const KIND_ARRAY := 3
  const KIND_STRUCT := 4
  const KIND_UNION := 5
  const KIND_ENUM := 6
  const KIND_FWD := 7
  const KIND_TYPEDEF := 8
  const KIND_VOLATILE := 9
  const KIND_CONST := 10
  const KIND_RESTRICT := 11

  /** A pointer to a type: the static void type, or a record at an address. */
  datatype TypePtr = Void | Record(addr: int)

  // ----- the table -----

  class TypeTable {
    var types: array?<TypePtr>
    var nrTypes: nat
    var typesSize: nat
    ghost var copied: nat  // slots copied by all reallocations so far

    constructor ()
      ensures Valid() && Ids() == [] && copied == 0
    {
      types, nrTypes, typesSize, copied := null, 0, 0, 0;
    }

    ghost predicate Valid()
      reads this, types
    {
      (types == null ==> nrTypes == typesSize == 0) &&
      (types != null ==>
         types.Length == typesSize && nrTypes < typesSize <= BTF_MAX_NR_TYPES && 16 <= typesSize && types[0] == Void) &&
      copied <= (if typesSize < BTF_MAX_NR_TYPES then 5 else 6) * typesSize
    }

    /** The types by id; id 0 is the void type once there are any. */
    ghost function Ids(): seq<TypePtr>
      reads this, types
      requires Valid()
    {
      if types == null then [] else types[..nrTypes + 1]
    }

    /** realloc to `newSize` slots. */
    method Grow(newSize: nat)
      requires Valid() && typesSize < newSize <= BTF_MAX_NR_TYPES && newSize >= 16
      requires newSize == BTF_MAX_NR_TYPES || newSize - typesSize == if typesSize / 4 > 16 then typesSize / 4 else 16
      modifies this
      ensures types != null && fresh(types) && Valid() && typesSize == newSize
      ensures nrTypes == old(nrTypes) && Ids() == if old(types) == null then [Void] else old(Ids())
      ensures copied == old(copied) + old(typesSize)
    {
      var newTypes := new TypePtr[newSize](_ => Void);
      if types != null {
        for i := 0 to typesSize
          invariant newTypes.Length == newSize && fresh(newTypes)
          invariant unchanged(this) && Valid()
          invariant forall j :: 0 <= j < i ==> newTypes[j] == types[j]
          invariant i == 0 ==> newTypes[0] == Void
        {
          newTypes[i] := types[i];
        }
      }
      assert newTypes[..nrTypes + 1] == if types == null then [Void] else types[..nrTypes + 1];
      copied := copied + typesSize;
      types := newTypes;
      typesSize := newSize;
    }

    /** btf_add_type. */
    method Add(t: TypePtr, oom: bool) returns (r: Status<Errno>)
      requires Valid()
      modifies this, types
      ensures Valid() && (types == old(types) || fresh(types))
      ensures r == Failed(E2BIG) <==> old(nrTypes) == BTF_MAX_NR_TYPES - 1
      ensures r == Failed(ENOMEM) <==> oom && old(typesSize - nrTypes) < 2 && old(nrTypes) < BTF_MAX_NR_TYPES - 1
      ensures r.Failed? ==> r.error == E2BIG || r.error == ENOMEM
      ensures r.Failed? ==> typesSize == old(typesSize)
      ensures r.Failed? ==> Ids() == old(Ids()) && nrTypes == old(nrTypes)
      ensures r.Done? ==>
        nrTypes == old(nrTypes) + 1 &&
        Ids() == (if old(types) == null then [Void] else old(Ids())) + [t]
    {
      if typesSize - nrTypes < 2 {
        if typesSize == BTF_MAX_NR_TYPES {
          return Failed(E2BIG);
        }
        var expandBy := if typesSize / 4 > 16 then typesSize / 4 else 16;
        var newSize := if BTF_MAX_NR_TYPES < typesSize + expandBy then BTF_MAX_NR_TYPES else typesSize + expandBy;
        if oom {
          return Failed(ENOMEM);
        }
        Grow(newSize);
      }
      nrTypes := nrTypes + 1;
      types[nrTypes] := t;
      return Done;
    }
  }

  /** btf__type_by_id on a table with `nr` types; None is NULL. */
  method TypeById(types: array<TypePtr>, nr: nat, id: nat) returns (t: Option<TypePtr>)
    requires nr < types.Length
    ensures t == if id < nr + 1 then Some(types[..nr + 1][id]) else None
  {
    if id > nr {
      return None;
    }
    return Some(types[id]);
  }

  // ----- records -----

  /** The memory the loader reads from, by address. */
  type Memory = int -> byte

  const TYPE_SIZE := 12    // struct btf_type
  const ARRAY_SIZE := 12   // struct btf_array
  const MEMBER_SIZE := 12  // struct btf_member
  const ENUM_SIZE := 8     // struct btf_enum
  const INT_SIZE := 4

  /** BTF_INFO_KIND and BTF_INFO_VLEN of the record at `p`. */
  function KindAt(mem: Memory, p: int): nat {
    mem(p + 7) % 0x10
  }

  function VlenAt(mem: Memory, p: int): nat {
    Le16(mem(p + 4), mem(p + 5))
  }

  /** What follows the common part of a record; None for a kind this loader does not know. */
  function ExtraSize(kind: nat, vlen: nat): Option<nat> {
    if kind == KIND_INT then Some(INT_SIZE)
    else if kind == KIND_ARRAY then Some(ARRAY_SIZE)
    else if kind == KIND_STRUCT || kind == KIND_UNION then Some(vlen * MEMBER_SIZE)
    else if kind == KIND_ENUM then Some(vlen * ENUM_SIZE)
    else if kind == KIND_TYPEDEF || kind == KIND_PTR || kind == KIND_FWD || kind == KIND_VOLATILE ||
            kind == KIND_CONST || kind == KIND_RESTRICT then Some(0)
    else None
  }

  /** Where records start between `p` and `end`, and whether all of them are known. */
  datatype Scan = Scan(starts: seq<int>, known: bool)

  function ScanFrom(mem: Memory, p: int, end: int): Scan
    decreases end - p
  {
    if p >= end then Scan([], true)
    else
      match ExtraSize(KindAt(mem, p), VlenAt(mem, p))
      case None => Scan([], false)
      case Some(extra) =>
        var rest := ScanFrom(mem, p + TYPE_SIZE + extra, end);
        Scan([p] + rest.starts, rest.known)
  }

  /** Records as pointers. */
  function Pointers(starts: seq<int>): (ps: seq<TypePtr>)
    ensures |ps| == |starts|
  {
    seq(|starts|, i requires 0 <= i < |starts| => Record(starts[i]))
  }

  /** How many more types fit. */
  function Room(nr: nat): nat {
    if nr < BTF_MAX_NR_TYPES - 1 then BTF_MAX_NR_TYPES - 1 - nr else 0
  }

  /** The ids after the records at `starts` have been added to a table with the ids `base`. */
  function Filled(base: seq<TypePtr>, starts: seq<int>): seq<TypePtr> {
    if starts == [] then base else (if base == [] then [Void] else base) + Pointers(starts)
  }

  lemma FillOneMore(base: seq<TypePtr>, starts: seq<int>, t: int)
    ensures Filled(base, starts + [t])
         == (if Filled(base, starts) == [] then [Void] else Filled(base, starts)) + [Record(t)]
  {
    assert Pointers(starts + [t]) == Pointers(starts) + [Record(t)];
  }

  /** The cursor behind the record at `t`: the switch in btf_parse_type_sec. */
  method SkipRecord(mem: Memory, t: int) returns (next: Option<int>)
    ensures
      match ExtraSize(KindAt(mem, t), VlenAt(mem, t))
      case None => next == None
      case Some(extra) => next == Some(t + TYPE_SIZE + extra)
  {
    var vlen, kind, cursor := VlenAt(mem, t), KindAt(mem, t), t + TYPE_SIZE;
    if kind == KIND_INT {
      cursor := cursor + INT_SIZE;
    } else if kind == KIND_ARRAY {
      cursor := cursor + ARRAY_SIZE;
    } else if kind == KIND_STRUCT || kind == KIND_UNION {
      cursor := cursor + vlen * MEMBER_SIZE;
    } else if kind == KIND_ENUM {
      cursor := cursor + vlen * ENUM_SIZE;
    } else if !(kind == KIND_TYPEDEF || kind == KIND_PTR || kind == KIND_FWD || kind == KIND_VOLATILE ||
                kind == KIND_CONST || kind == KIND_RESTRICT) {
      return None;
    }
    return Some(cursor);
  }

  /** Whether the record at `t` is of a known kind, and then where the next one starts. */
  predicate Follows(mem: Memory, t: int, next: int) {
    var extra := ExtraSize(KindAt(mem, t), VlenAt(mem, t));
    extra.Some? && next == t + TYPE_SIZE + extra.value
  }

  /** The places the cursor passes: the start of every record, and the place where the scan ends. */
  ghost predicate Passes(mem: Memory, end: int, scan: Scan, cursors: seq<int>) {
    |cursors| == |scan.starts| + 1 &&
    (forall i :: 0 <= i < |scan.starts| ==>
       cursors[i] < end && scan.starts[i] == cursors[i] && Follows(mem, cursors[i], cursors[i + 1])) &&
    var last := cursors[|scan.starts|];
    if last >= end then scan.known else !scan.known && ExtraSize(KindAt(mem, last), VlenAt(mem, last)).None?
  }

  lemma {:induction false} Cursors(mem: Memory, p: int, end: int) returns (cursors: seq<int>)
    ensures Passes(mem, end, ScanFrom(mem, p, end), cursors) && cursors[0] == p
    decreases end - p
  {
    var extra := ExtraSize(KindAt(mem, p), VlenAt(mem, p));
    if p >= end || extra.None? {
      cursors := [p];
    } else {
      var rest := Cursors(mem, p + TYPE_SIZE + extra.value, end);
      cursors := [p] + rest;
    }
  }

  /** What parsing `starts` into a table with `nr` types and the ids `base` ends in. */
  ghost predicate Parsed(base: seq<TypePtr>, nr: nat, starts: seq<int>, known: bool, r: Status<Errno>,
                         ids: seq<TypePtr>)
  {
    var room := Room(nr);
    r == (if |starts| > room then Failed(E2BIG) else if known then Done else Failed(EINVAL)) &&
    ids == Filled(base, if |starts| > room then starts[..room] else starts)
  }

  /** One turn of btf_parse_type_sec: the record at `t` gets the next id. */
  method AddRecord(table: TypeTable, mem: Memory, t: int, oom: bool, ghost base: seq<TypePtr>, ghost starts: seq<int>)
    returns (r: Result<int, Errno>)
    requires table.Valid() && table.Ids() == Filled(base, starts)
    modifies table, table.types
    ensures table.Valid() && (table.types == old(table.types) || fresh(table.types))
    ensures r.Ok? ==> Follows(mem, t, r.value)
    ensures r.Ok? ==> table.nrTypes == old(table.nrTypes) + 1 && table.Ids() == Filled(base, starts + [t])
    ensures r.Err? ==> table.nrTypes == old(table.nrTypes) && table.typesSize == old(table.typesSize)
    ensures r.Err? ==> table.Ids() == Filled(base, starts)
    ensures
      if ExtraSize(KindAt(mem, t), VlenAt(mem, t)).None? then r == Err(EINVAL)
      else if old(table.nrTypes) >= BTF_MAX_NR_TYPES - 1 then r == Err(E2BIG)
      else if oom && old(table.typesSize - table.nrTypes) < 2 then r == Err(ENOMEM)
      else r.Ok?
  {
    var next := SkipRecord(mem, t);
    if next == None {
      return Err(EINVAL);
    }
    FillOneMore(base, starts, t);
    var added := table.Add(Record(t), oom);
    if added.Failed? {
      return Err(added.error);
    }
    return Ok(next.value);
  }

  /** After the first `i` records. */
  ghost predicate Underway(table: TypeTable, base: seq<TypePtr>, nr: nat, starts: seq<int>, i: nat)
    reads table, table.types
  {
    table.Valid() && i <= |starts| && i <= Room(nr) && table.nrTypes == nr + i &&
    table.Ids() == Filled(base, starts[..i])
  }

  /** Parsing ended: a growth was refused after `i` records, or it went as far as the records and the ids do. */
  ghost predicate Ended(table: TypeTable, base: seq<TypePtr>, nr: nat, scan: Scan, oom: nat -> bool, r: Status<Errno>)
    reads table, table.types
  {
    table.Valid() &&
    if r == Failed(ENOMEM) then
      exists i: nat :: i < |scan.starts| && i < Room(nr) && oom(nr + i) && table.typesSize - table.nrTypes < 2 &&
        Underway(table, base, nr, scan.starts, i)
    else Parsed(base, nr, scan.starts, scan.known, r, table.Ids())
  }

  lemma Ends(table: TypeTable, base: seq<TypePtr>, nr: nat, scan: Scan, oom: nat -> bool, i: nat, r: Status<Errno>)
    requires Underway(table, base, nr, scan.starts, i)
    requires
      if i == |scan.starts| then r == if scan.known then Done else Failed(EINVAL)
      else if i == Room(nr) then r == Failed(E2BIG)
      else r == Failed(ENOMEM) && oom(nr + i) && table.typesSize - table.nrTypes < 2
    ensures Ended(table, base, nr, scan, oom, r)
  {
    assert scan.starts[..|scan.starts|] == scan.starts;
  }

  /** A refused record: why, and that this is the end. */
  lemma Refused(table: TypeTable, mem: Memory, base: seq<TypePtr>, nr: nat, scan: Scan, oom: nat -> bool, i: nat,
                t: int, e: Errno)
    requires Underway(table, base, nr, scan.starts, i)
    requires if i < |scan.starts| then ExtraSize(KindAt(mem, t), VlenAt(mem, t)).Some?
             else !scan.known && ExtraSize(KindAt(mem, t), VlenAt(mem, t)).None?
    requires
      if ExtraSize(KindAt(mem, t), VlenAt(mem, t)).None? then e == EINVAL
      else if table.nrTypes >= BTF_MAX_NR_TYPES - 1 then e == E2BIG
      else oom(nr + i) && table.typesSize - table.nrTypes < 2 && e == ENOMEM
    ensures Ended(table, base, nr, scan, oom, Failed(e))
  {
    Ends(table, base, nr, scan, oom, i, Failed(e));
  }

  /** A parse in progress: what it started from and what it will meet. */
  datatype Parse = Parse(base: seq<TypePtr>, nr: nat, scan: Scan, cursors: seq<int>)

  /** The loop has added `i` records and stands at `cursor`. */
  ghost predicate Here(table: TypeTable, mem: Memory, end: int, g: Parse, i: nat, cursor: int)
    reads table, table.types
  {
    Underway(table, g.base, g.nr, g.scan.starts, i) && Passes(mem, end, g.scan, g.cursors) && cursor == g.cursors[i]
  }

  /** What stands at the cursor: the next record, or a record of an unknown kind. */
  lemma StandsHere(table: TypeTable, mem: Memory, end: int, g: Parse, i: nat, cursor: int)
    requires Here(table, mem, end, g, i, cursor) && cursor < end
    ensures
      if i < |g.scan.starts| then g.scan.starts[i] == cursor && Follows(mem, cursor, g.cursors[i + 1])
      else !g.scan.known && ExtraSize(KindAt(mem, cursor), VlenAt(mem, cursor)).None?
  {
    if i < |g.scan.starts| {
      assert Follows(mem, g.cursors[i], g.cursors[i + 1]);
    }
  }

  /** An added record takes the loop to the next cursor. */
  lemma Advances(table: TypeTable, mem: Memory, end: int, g: Parse, i: nat, cursor: int, next: int)
    requires Passes(mem, end, g.scan, g.cursors) && i < |g.scan.starts| && i < Room(g.nr) && cursor == g.cursors[i]
    requires
      table.Valid() && table.nrTypes == g.nr + i + 1 && table.Ids() == Filled(g.base, g.scan.starts[..i] + [cursor])
    requires Follows(mem, cursor, next)
    ensures Here(table, mem, end, g, i + 1, next)
  {
    assert g.scan.starts[i] == cursor && Follows(mem, g.cursors[i], g.cursors[i + 1]);
    assert g.scan.starts[..i + 1] == g.scan.starts[..i] + [cursor];
  }

  /** One turn: the `i`-th record is added and the cursor moves on, or parsing ends. */
  method ParseOne(table: TypeTable, mem: Memory, cursor: int, end: int, oom: nat -> bool, ghost g: Parse, ghost i: nat)
    returns (r: Result<int, Errno>)
    requires Here(table, mem, end, g, i, cursor) && cursor < end
    modifies table, table.types
    ensures table.types == old(table.types) || fresh(table.types)
    ensures r.Ok? ==> i < |g.scan.starts| && Here(table, mem, end, g, i + 1, r.value)
    ensures r.Err? ==> Ended(table, g.base, g.nr, g.scan, oom, Failed(r.error))
  {
    StandsHere(table, mem, end, g, i, cursor);
    r := AddRecord(table, mem, cursor, oom(table.nrTypes), g.base, g.scan.starts[..i]);
    if r.Err? {
      Refused(table, mem, g.base, g.nr, g.scan, oom, i, cursor, r.error);
    } else {
      Advances(table, mem, end, g, i, cursor, r.value);
    }
  }

  lemma Finishes(table: TypeTable, mem: Memory, end: int, oom: nat -> bool, g: Parse, i: nat, cursor: int)
    requires Here(table, mem, end, g, i, cursor) && cursor >= end
    ensures Ended(table, g.base, g.nr, g.scan, oom, Done)
  {
    Ends(table, g.base, g.nr, g.scan, oom, i, Done);
  }

  /**
   btf_parse_type_sec over the section from `start` to `end`; `oom` tells which growths are
   refused, by the number of types.
   */
  method ParseTypeSec(table: TypeTable, mem: Memory, start: int, end: int, oom: nat -> bool) returns (r: Status<Errno>)
    requires table.Valid()
    modifies table, table.types
    ensures Ended(table, old(table.Ids()), old(table.nrTypes), ScanFrom(mem, start, end), oom, r)
  {
    ghost var cursors := Cursors(mem, start, end);
    ghost var g, i: nat := Parse(table.Ids(), table.nrTypes, ScanFrom(mem, start, end), cursors), 0;
    var cursor := start;
    while cursor < end
      invariant table.types == old(table.types) || fresh(table.types)
      invariant Here(table, mem, end, g, i, cursor)
      decreases |g.scan.starts| - i
    {
      var next := ParseOne(table, mem, cursor, end, oom, g, i);
      if next.Err? {
        return Failed(next.error);
      }
      i := i + 1;
      cursor := next.value;
    }
    Finishes(table, mem, end, oom, g, i, cursor);
    return Done;
  }
}
