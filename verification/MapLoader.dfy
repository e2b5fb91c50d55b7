/**
 The maps section of an object file, read by libbpf and by the older loader: definitions of
 any size are copied into records of a known size, and the table is sorted by offset.
 */
module MapLoader {
  import opened Wrappers
  import opened Bytes
  import BpfIsa

  const LIBBPF_DEF := 20  // sizeof(struct bpf_map_def) in libbpf.h
  const LOADER_DEF := 28  // sizeof(struct bpf_map_def) in bpf_load.h
  const MAX_MAPS := 32

  /** Errors, and how a loader can die: dividing by zero, in a failed assertion, or writing behind its table. */
  datatype Errno = EINVAL | EFBIG | Crash | Abort | Overrun

  /** A symbol: its section, its value (an offset into the section) and its name in the string table. */
  datatype Symbol = Symbol(shndx: int, value: nat, name: nat)

  /** A map of the table. */
  datatype Entry = Entry(offset: nat, name: nat, def: seq<byte>)

  // ----- definitions of any size -----

  predicate AllZero(bs: seq<byte>) {
    forall i :: 0 <= i < |bs| ==> bs[i] == 0
  }

  /** Cut off or filled up with zeros. */
  function Resize(bs: seq<byte>, n: nat): (r: seq<byte>)
    ensures |r| == n
  {
    if n <= |bs| then bs[..n] else bs + Zeros(n - |bs|)
  }

  /** A definition as it stands in the file, as a record of `known` bytes; None if it asks for unknown features. */
  function Define(known: nat, bs: seq<byte>): Option<seq<byte>> {
    if known < |bs| && !AllZero(bs[known..]) then None else Some(Resize(bs, known))
  }

  /** An accepted definition comes back byte for byte. */
  lemma DefinedComesBack(known: nat, bs: seq<byte>)
    requires Define(known, bs).Some?
    ensures Resize(Define(known, bs).value, |bs|) == bs
  {
    var r := Resize(Define(known, bs).value, |bs|);
    forall i | 0 <= i < |bs|
      ensures r[i] == bs[i]
    {
      if i >= known {
        assert bs[known..][i - known] == 0;
      }
    }
  }

  /** A definition is accepted exactly if it says no more than a record can hold. */
  lemma AcceptedIff(known: nat, bs: seq<byte>)
    ensures Define(known, bs).Some? <==> exists d: seq<byte> :: |d| == known && Resize(d, |bs|) == bs
  {
    if Define(known, bs).Some? {
      DefinedComesBack(known, bs);
      assert |Define(known, bs).value| == known;
    } else {
      forall d: seq<byte> | |d| == known
        ensures Resize(d, |bs|) != bs
      {
        assert Resize(d, |bs|)[known..] == Zeros(|bs| - known);
      }
    }
  }

  /** A record written with `n` bytes that hold all it says is read back, whatever `n`. */
  lemma RecordComesBack(d: seq<byte>, n: nat)
    requires n < |d| ==> AllZero(d[n..])
    ensures Define(|d|, Resize(d, n)) == Some(d)
  {
    var bs := Resize(d, n);
    if n < |d| {
      assert d[n..] == Zeros(|d| - n);
      assert d == d[..n] + d[n..];
    } else {
      assert bs[|d|..] == Zeros(n - |d|);
      assert bs[..|d|] == d;
    }
  }

  /** The smaller record refuses exactly what the larger one refuses or holds in its further bytes. */
  lemma SmallerRecordIff(bs: seq<byte>, small: nat, large: nat)
    requires small <= large
    ensures Define(small, bs).Some? <==>
            Define(large, bs).Some? && AllZero(Define(large, bs).value[small..])
    ensures Define(small, bs).Some? ==> Define(large, bs).value == Resize(Define(small, bs).value, large)
  {
    if Define(small, bs).Some? {
      var d := Define(small, bs).value;
      forall i | small <= i < |bs|
        ensures bs[i] == 0
      {
        assert bs[small..][i - small] == 0;
      }
      assert Resize(bs, large) == Resize(d, large);
    } else if Define(large, bs).Some? {
      var i :| 0 <= i < |bs[small..]| && bs[small..][i] != 0;
      assert bs[small + i] != 0;
      assert Resize(bs, large)[small..][i] != 0;
    }
  }

  lemma SliceOfSlice(data: seq<byte>, off: nat, size: nat, known: nat)
    requires known <= size && off + size <= |data|
    ensures data[off..off + size][..known] == data[off..off + known]
    ensures data[off..off + size][known..] == data[off + known..off + size]
  {
  }

  /** Copying a definition out of the section: the loop looks for a non-zero byte behind the known ones. */
  method CopyDefinition(data: seq<byte>, off: nat, size: nat, known: nat) returns (r: Option<seq<byte>>)
    requires off + size <= |data|
    ensures r == Define(known, data[off..off + size])
  {
    ghost var bs := data[off..off + size];
    if size <= known {
      var bs' := data[off..off + size];
      assert bs + Zeros(0) == bs == bs[..size];
      return Some(bs' + seq(known - size, _ => 0));
    }
    for b := off + known to off + size
      invariant forall i :: off + known <= i < b ==> data[i] == 0
    {
      if data[b] != 0 {
        assert bs[known..][b - off - known] != 0;
        return None;
      }
    }
    SliceOfSlice(data, off, size, known);
    assert AllZero(data[off + known..off + size]);
    return Some(data[off..off + known]);
  }

  // ----- sorting -----

  predicate SortedBy<T(!new)>(s: seq<T>, key: T -> int) {
    forall i, j :: 0 <= i < j < |s| ==> key(s[i]) <= key(s[j])
  }

  /** A sorted rearrangement. */
  ghost predicate Sorting<T(!new)>(r: seq<T>, s: seq<T>, key: T -> int) {
    multiset(r) == multiset(s) && SortedBy(r, key)
  }

  /** On the elements of `s` the comparison goes by the key. */
  ghost predicate Follows<T(!new)>(cmp: (T, T) -> int, key: T -> int, s: seq<T>) {
    forall x, y :: x in s && y in s ==> (cmp(x, y) <= 0 <==> key(x) <= key(y))
  }

  /** The array after one insertion. */
  function Insert<T>(s: seq<T>, x: T, cmp: (T, T) -> int): (r: seq<T>)
    ensures multiset(r) == multiset(s) + multiset{x}
  {
    if |s| == 0 then [x]
    else if cmp(x, s[0]) <= 0 then [x] + s
    else
      assert s == [s[0]] + s[1..];
      [s[0]] + Insert(s[1..], x, cmp)
  }

  lemma {:induction false} InsertKeepsSorted<T(!new)>(s: seq<T>, x: T, cmp: (T, T) -> int, key: T -> int)
    requires SortedBy(s, key) && forall y :: y in s ==> (cmp(x, y) <= 0 <==> key(x) <= key(y))
    ensures SortedBy(Insert(s, x, cmp), key)
  {
    if |s| > 0 && cmp(x, s[0]) > 0 {
      var tail := Insert(s[1..], x, cmp);
      InsertKeepsSorted(s[1..], x, cmp, key);
      forall j | 0 <= j < |tail|
        ensures key(s[0]) <= key(tail[j])
      {
        assert tail[j] in multiset(tail);
        assert tail[j] in s[1..] || tail[j] == x;
      }
      LeastFirst(s[0], tail, key);
    }
  }

  lemma LeastFirst<T(!new)>(x: T, tail: seq<T>, key: T -> int)
    requires SortedBy(tail, key) && forall j :: 0 <= j < |tail| ==> key(x) <= key(tail[j])
    ensures SortedBy([x] + tail, key)
  {
  }

  /** qsort: a rearrangement, sorted if the comparison follows a key. */
  method Qsort<T(!new)>(s: seq<T>, cmp: (T, T) -> int, ghost key: T -> int) returns (r: seq<T>)
    ensures multiset(r) == multiset(s)
    ensures Follows(cmp, key, s) ==> SortedBy(r, key)
  {
    r := [];
    for i := 0 to |s|
      invariant multiset(r) == multiset(s[..i])
      invariant Follows(cmp, key, s) ==> SortedBy(r, key)
    {
      if Follows(cmp, key, s) {
        forall y | y in r
          ensures cmp(s[i], y) <= 0 <==> key(s[i]) <= key(y)
        {
          assert y in multiset(s[..i]);
        }
        InsertKeepsSorted(r, s[i], cmp, key);
      }
      r := Insert(r, s[i], cmp);
      assert s[..i + 1] == s[..i] + [s[i]];
    }
    assert s[..|s|] == s;
  }

  ghost predicate DistinctBy<T(!new)>(s: seq<T>, key: T -> int) {
    forall i, j :: 0 <= i < j < |s| ==> key(s[i]) != key(s[j])
  }

  lemma FirstIsLeast<T(!new)>(a: seq<T>, b: seq<T>, key: T -> int)
    requires SortedBy(a, key) && SortedBy(b, key) && multiset(a) == multiset(b) && |a| > 0 && |b| > 0
    ensures key(a[0]) == key(b[0]) && a[0] in b
  {
    assert a[0] in multiset(a) && b[0] in multiset(b);
    var i :| 0 <= i < |b| && b[i] == a[0];
    var j :| 0 <= j < |a| && a[j] == b[0];
  }

  lemma SameTails<T>(a: seq<T>, b: seq<T>)
    requires multiset(a) == multiset(b) && |a| > 0 && |b| > 0 && a[0] == b[0]
    ensures multiset(a[1..]) == multiset(b[1..])
  {
    SameWithout(a, 0, b, 0);
    assert Without(a, 0) == a[1..] && Without(b, 0) == b[1..];
  }

  lemma Cancel<T>(x: multiset<T>, y: multiset<T>, e: T)
    requires x + multiset{e} == y + multiset{e}
    ensures x == y
  {
    assert x == x + multiset{e} - multiset{e} && y == y + multiset{e} - multiset{e};
  }

  /** With distinct keys there is one sorted rearrangement. */
  lemma {:induction false} SortingIsUnique<T(!new)>(a: seq<T>, b: seq<T>, key: T -> int)
    requires SortedBy(a, key) && SortedBy(b, key) && multiset(a) == multiset(b) && DistinctBy(b, key)
    ensures a == b
  {
    assert |a| == |multiset(a)| == |multiset(b)| == |b|;
    if |a| > 0 {
      FirstIsLeast(a, b, key);
      var i :| 0 <= i < |b| && b[i] == a[0];
      assert i == 0;
      SameTails(a, b);
      SortingIsUnique(a[1..], b[1..], key);
    }
  }

  /** All sorted rearrangements have the same keys, place by place. */
  lemma {:induction false} SortedKeys<T(!new)>(a: seq<T>, b: seq<T>, key: T -> int, i: nat)
    requires SortedBy(a, key) && SortedBy(b, key) && multiset(a) == multiset(b) && i < |a|
    ensures |a| == |b| && key(a[i]) == key(b[i])
    decreases i
  {
    SameLength(a, b);
    FirstIsLeast(a, b, key);
    if i > 0 {
      var j :| 0 <= j < |b| && b[j] == a[0];
      SameWithout(a, 0, b, j);
      SortedWithout(a, 0, key);
      SortedWithout(b, j, key);
      SortedKeys(Without(a, 0), Without(b, j), key, i - 1);
      KeysMoveUp(a, 0, key, i);
      KeysMoveUp(b, j, key, i);
    }
  }

  lemma SortedWithout<T(!new)>(s: seq<T>, j: nat, key: T -> int)
    requires SortedBy(s, key) && j < |s|
    ensures SortedBy(Without(s, j), key)
  {
  }

  /** Of several least elements it does not matter which one goes. */
  lemma KeysMoveUp<T(!new)>(s: seq<T>, j: nat, key: T -> int, i: nat)
    requires SortedBy(s, key) && j < |s| && key(s[j]) == key(s[0]) && 0 < i < |s|
    ensures key(Without(s, j)[i - 1]) == key(s[i])
  {
    if i <= j {
      assert key(s[0]) <= key(s[i - 1]) <= key(s[i]) && (i < j ==> key(s[i]) <= key(s[j]));
    }
  }

  // ----- comparisons -----

  /** cmp_symbols. */
  function CmpSymbols(l: Symbol, r: Symbol): int {
    if l.value < r.value then -1 else if l.value > r.value then 1 else 0
  }

  /** compare_bpf_map: a difference of wide offsets, returned as a 32-bit int. */
  function CompareBpfMap(a: Entry, b: Entry): int {
    BpfIsa.ToS32(a.offset - b.offset)
  }

  ghost function ValueOf(): Symbol -> int {
    (s: Symbol) => s.value
  }

  ghost function OffsetOf(): Entry -> int {
    (e: Entry) => e.offset
  }

  predicate InOrder(x: nat, y: nat) {
    BpfIsa.ToS32(x - y) <= 0 <==> x <= y
  }

  /** The narrowed difference orders all offsets below `n` exactly if `n` is at most 2^31. */
  lemma NarrowingOrdersIff(n: nat)
    ensures (forall x: nat, y: nat :: x < n && y < n ==> InOrder(x, y)) <==> n <= BpfIsa.TWO_31
  {
    if n > BpfIsa.TWO_31 {
      assert !InOrder(BpfIsa.TWO_31, 0);
    }
  }

  // ----- selecting symbols -----

  /** The readable symbols of a section, in file order. */
  function Selected(symbols: seq<Option<Symbol>>, shndx: int): (sel: seq<Symbol>)
    ensures |sel| <= |symbols|
    ensures forall i :: 0 <= i < |sel| ==> sel[i].shndx == shndx
  {
    if |symbols| == 0 then []
    else
      var last := symbols[|symbols| - 1];
      Selected(symbols[..|symbols| - 1], shndx) +
      if last.Some? && last.value.shndx == shndx then [last.value] else []
  }

  /** The definition a symbol names stands inside the section. */
  predicate Inside(data: seq<byte>, size: nat, s: Symbol) {
    s.value + size <= |data|
  }

  predicate Acceptable(data: seq<byte>, size: nat, known: nat, s: Symbol) {
    Inside(data, size, s) && Define(known, data[s.value..s.value + size]).Some?
  }

  function EntryOf(data: seq<byte>, size: nat, known: nat, s: Symbol): Entry
    requires Acceptable(data, size, known, s)
  {
    Entry(s.value, s.name, Define(known, data[s.value..s.value + size]).value)
  }

  predicate AllAcceptable(data: seq<byte>, size: nat, known: nat, sel: seq<Symbol>) {
    forall i :: 0 <= i < |sel| ==> Acceptable(data, size, known, sel[i])
  }

  function Entries(data: seq<byte>, size: nat, known: nat, sel: seq<Symbol>): (es: seq<Entry>)
    requires AllAcceptable(data, size, known, sel)
    ensures |es| == |sel|
  {
    seq(|sel|, i requires 0 <= i < |sel| => EntryOf(data, size, known, sel[i]))
  }

  /** All definitions are taken to be of one size. */
  function Share(total: nat, n: nat): nat
    requires n > 0
  {
    total / n
  }

  // ----- libbpf -----

  /** One entry of the table, or the refusal of a definition that ends outside the section or asks too much. */
  method FillMap(sym: Symbol, data: seq<byte>, size: nat) returns (r: Result<Entry, Errno>)
    ensures
      if Acceptable(data, size, LIBBPF_DEF, sym) then r == Ok(EntryOf(data, size, LIBBPF_DEF, sym))
      else r == Err(EINVAL)
  {
    if sym.value + size > |data| {
      return Err(EINVAL);
    }
    var def := CopyDefinition(data, sym.value, size, LIBBPF_DEF);
    if def.None? {
      return Err(EINVAL);
    }
    return Ok(Entry(sym.value, sym.name, def.value));
  }

  lemma OneMoreEntry(data: seq<byte>, size: nat, known: nat, sel: seq<Symbol>, s: Symbol)
    requires AllAcceptable(data, size, known, sel) && Acceptable(data, size, known, s)
    ensures AllAcceptable(data, size, known, sel + [s])
    ensures Entries(data, size, known, sel + [s]) == Entries(data, size, known, sel) + [EntryOf(data, size, known, s)]
  {
  }

  /** The loop over the symbols in bpf_object__init_maps. */
  method FillMaps(symbols: seq<Option<Symbol>>, shndx: int, data: seq<byte>, size: nat)
    returns (r: Result<seq<Entry>, Errno>)
    ensures
      var sel := Selected(symbols, shndx);
      if AllAcceptable(data, size, LIBBPF_DEF, sel) then r == Ok(Entries(data, size, LIBBPF_DEF, sel))
      else r == Err(EINVAL)
  {
    var maps: seq<Entry> := [];
    for i := 0 to |symbols|
      invariant AllAcceptable(data, size, LIBBPF_DEF, Selected(symbols[..i], shndx))
      invariant maps == Entries(data, size, LIBBPF_DEF, Selected(symbols[..i], shndx))
    {
      SelectedStep(symbols, shndx, i);
      if symbols[i].Some? && symbols[i].value.shndx == shndx {
        var entry := FillMap(symbols[i].value, data, size);
        if entry.Err? {
          SelectedHas(symbols, shndx, i);
          return Err(entry.error);
        }
        OneMoreEntry(data, size, LIBBPF_DEF, Selected(symbols[..i], shndx), symbols[i].value);
        maps := maps + [entry.value];
      }
    }
    assert symbols[..|symbols|] == symbols;
    return Ok(maps);
  }

  lemma SelectedStep(symbols: seq<Option<Symbol>>, shndx: int, i: nat)
    requires i < |symbols|
    ensures Selected(symbols[..i + 1], shndx) == Selected(symbols[..i], shndx) +
            if symbols[i].Some? && symbols[i].value.shndx == shndx then [symbols[i].value] else []
  {
    assert symbols[..i + 1][..i] == symbols[..i];
  }

  lemma {:induction false} SelectedHas(symbols: seq<Option<Symbol>>, shndx: int, i: nat)
    requires i < |symbols| && symbols[i].Some? && symbols[i].value.shndx == shndx
    ensures exists j :: 0 <= j < |Selected(symbols, shndx)| && Selected(symbols, shndx)[j] == symbols[i].value
  {
    var n := |symbols| - 1;
    if i < n {
      SelectedHas(symbols[..n], shndx, i);
      var j :| 0 <= j < |Selected(symbols[..n], shndx)| && Selected(symbols[..n], shndx)[j] == symbols[i].value;
      assert Selected(symbols, shndx)[j] == symbols[i].value;
    } else {
      assert Selected(symbols, shndx)[|Selected(symbols[..n], shndx)|] == symbols[i].value;
    }
  }

  method CountMaps(symbols: seq<Option<Symbol>>, shndx: int) returns (n: nat)
    ensures n == |Selected(symbols, shndx)|
  {
    n := 0;
    for i := 0 to |symbols|
      invariant n == |Selected(symbols[..i], shndx)|
    {
      SelectedStep(symbols, shndx, i);
      if symbols[i].Some? && symbols[i].value.shndx == shndx {
        n := n + 1;
      }
    }
    assert symbols[..|symbols|] == symbols;
  }

  /** When bpf_object__init_maps succeeds. */
  predicate LibbpfAccepts(sel: seq<Symbol>, data: seq<byte>) {
    |sel| == 0 ||
    (|data| > 0 && |data| % |sel| == 0 && AllAcceptable(data, Share(|data|, |sel|), LIBBPF_DEF, sel))
  }

  /** The record size of a section of `total` bytes fits an int. */
  predicate SizeFits(total: nat, symbols: Option<seq<Option<Symbol>>>, shndx: int) {
    symbols.Some? && |Selected(symbols.value, shndx)| > 0 ==>
      Share(total, |Selected(symbols.value, shndx)|) < BpfIsa.TWO_31
  }

  /**
   bpf_object__init_maps; None is a section or a symbol table that cannot be had.  The records are
   always those of the section; they are sorted if the narrowed comparison follows the offsets.
   */
  method InitMaps(symbols: Option<seq<Option<Symbol>>>, shndx: int, section: Option<seq<byte>>)
    returns (r: Result<seq<Entry>, Errno>)
    requires section.Some? ==> SizeFits(|section.value|, symbols, shndx)
    ensures r.Ok? <==>
      shndx >= 0 && symbols.Some? && section.Some? && LibbpfAccepts(Selected(symbols.value, shndx), section.value)
    ensures r.Err? ==> r.error == EINVAL
    ensures r.Ok? ==>
      var sel := Selected(symbols.value, shndx);
      if |sel| == 0 then r.value == []
      else
        var es := Entries(section.value, Share(|section.value|, |sel|), LIBBPF_DEF, sel);
        multiset(r.value) == multiset(es) &&
        (Follows(CompareBpfMap, OffsetOf(), es) ==> Sorting(r.value, es, OffsetOf()))
  {
    if shndx < 0 || symbols.None? || section.None? {
      return Err(EINVAL);
    }
    var data := section.value;
    var nrMaps := CountMaps(symbols.value, shndx);
    if nrMaps == 0 {
      return Ok([]);
    }
    var size := Share(|data|, nrMaps);
    if |data| == 0 || |data| % nrMaps != 0 {
      return Err(EINVAL);
    }
    r := FillMaps(symbols.value, shndx, data, size);
    if r.Ok? {
      var maps := Qsort(r.value, CompareBpfMap, OffsetOf());
      return Ok(maps);
    }
  }

  /** It does so in every section of at most 2^31 bytes. */
  lemma SmallSectionsAreSorted(data: seq<byte>, sel: seq<Symbol>)
    requires LibbpfAccepts(sel, data) && |sel| > 0 && |data| <= BpfIsa.TWO_31
    ensures Follows(CompareBpfMap, OffsetOf(), Entries(data, Share(|data|, |sel|), LIBBPF_DEF, sel))
  {
    var es := Entries(data, Share(|data|, |sel|), LIBBPF_DEF, sel);
    ShareIsPositive(|data|, |sel|);
    forall i | 0 <= i < |es|
      ensures es[i].offset < BpfIsa.TWO_31
    {
      assert Acceptable(data, Share(|data|, |sel|), LIBBPF_DEF, sel[i]);
    }
    NarrowingFollows(es);
  }

  lemma ShareIsPositive(total: nat, n: nat)
    requires total > 0 && n > 0 && total % n == 0
    ensures Share(total, n) > 0
  {
  }

  lemma NarrowingFollows(es: seq<Entry>)
    requires forall i :: 0 <= i < |es| ==> es[i].offset < BpfIsa.TWO_31
    ensures Follows(CompareBpfMap, OffsetOf(), es)
  {
  }

  // ----- the older loader -----

  /** A symbol is looked at after MAX_MAPS + 1 symbols of the section were found. */
  predicate TooMany(symbols: seq<Option<Symbol>>, shndx: int) {
    |symbols| > 0 && |Selected(symbols[..|symbols| - 1], shndx)| > MAX_MAPS
  }

  /**
   A section can have one map too many for the table and pass the assertion: its last map is the
   last symbol of all.
   */
  lemma OneTooManyIff(symbols: seq<Option<Symbol>>, shndx: int)
    ensures
      !TooMany(symbols, shndx) && |Selected(symbols, shndx)| > MAX_MAPS <==>
      |Selected(symbols, shndx)| == 33 &&
      symbols[|symbols| - 1].Some? && symbols[|symbols| - 1].value.shndx == shndx
    ensures |Selected(symbols, shndx)| <= 32 ==> !TooMany(symbols, shndx)
  {
    if |symbols| > 0 {
      assert symbols[..|symbols|] == symbols;
      SelectedStep(symbols, shndx, |symbols| - 1);
    }
  }

  lemma {:induction false} SelectedGrows(symbols: seq<Option<Symbol>>, shndx: int, i: nat)
    requires i <= |symbols|
    ensures |Selected(symbols[..i], shndx)| <= |Selected(symbols, shndx)|
  {
    if i == |symbols| {
      assert symbols[..i] == symbols;
    } else {
      var front := symbols[..|symbols| - 1];
      assert front[..i] == symbols[..i];
      SelectedGrows(front, shndx, i);
    }
  }

  lemma TooManyEarly(symbols: seq<Option<Symbol>>, shndx: int, i: nat)
    requires i < |symbols| && |Selected(symbols[..i], shndx)| > MAX_MAPS
    ensures TooMany(symbols, shndx)
  {
    var front := symbols[..|symbols| - 1];
    assert front[..i] == symbols[..i];
    SelectedGrows(front, shndx, i);
  }

  /** The symbols of the section, collected in a table of MAX_MAPS + 1, with the assertion in the loop. */
  method CollectSymbols(symbols: seq<Option<Symbol>>, shndx: int) returns (r: Result<seq<Symbol>, Errno>)
    ensures r == if TooMany(symbols, shndx) then Err(Abort) else Ok(Selected(symbols, shndx))
  {
    var sym: seq<Symbol> := [];
    for i := 0 to |symbols|
      invariant sym == Selected(symbols[..i], shndx)
      invariant i > 0 ==> |Selected(symbols[..i - 1], shndx)| <= MAX_MAPS
    {
      if |sym| > MAX_MAPS {
        TooManyEarly(symbols, shndx, i);
        return Err(Abort);
      }
      SelectedStep(symbols, shndx, i);
      if symbols[i].Some? && symbols[i].value.shndx == shndx {
        sym := sym + [symbols[i].value];
      }
    }
    assert symbols[..|symbols|] == symbols;
    return Ok(sym);
  }

  /** The symbols whose definitions the table has room for. */
  function Room(sym: seq<Symbol>): (lead: seq<Symbol>)
    ensures |lead| <= MAX_MAPS
  {
    if |sym| <= MAX_MAPS then sym else sym[..MAX_MAPS]
  }

  /** One turn of the loop that copies: it has no look at where a definition ends. */
  method CopyMap(sym: Symbol, data: seq<byte>, size: nat) returns (r: Result<Entry, Errno>)
    requires Inside(data, size, sym)
    ensures
      r == if Acceptable(data, size, LOADER_DEF, sym) then Ok(EntryOf(data, size, LOADER_DEF, sym)) else Err(EFBIG)
  {
    var def := CopyDefinition(data, sym.value, size, LOADER_DEF);
    return if def.None? then Err(EFBIG) else Ok(Entry(sym.value, sym.name, def.value));
  }

  /** The loop that copies the definitions, in the order of `sym`, with no look at the end of the table. */
  method CopyMaps(sym: seq<Symbol>, data: seq<byte>, size: nat) returns (r: Result<seq<Entry>, Errno>)
    requires AllInside(data, size, Room(sym))
    ensures
      if !AllAcceptable(data, size, LOADER_DEF, Room(sym)) then r == Err(EFBIG)
      else if |sym| > MAX_MAPS then r == Err(Overrun)
      else r == Ok(Entries(data, size, LOADER_DEF, sym))
  {
    var maps: seq<Entry> := [];
    for i := 0 to |sym|
      invariant i <= MAX_MAPS
      invariant AllAcceptable(data, size, LOADER_DEF, sym[..i])
      invariant maps == Entries(data, size, LOADER_DEF, sym[..i])
    {
      if i == MAX_MAPS {
        return Err(Overrun);
      }
      assert sym[i] == Room(sym)[i];
      var entry := CopyMap(sym[i], data, size);
      if entry.Err? {
        return Err(entry.error);
      }
      assert sym[..i + 1] == sym[..i] + [sym[i]];
      maps := maps + [entry.value];
    }
    assert sym[..|sym|] == sym;
    return Ok(maps);
  }

  /**
   If definitions are copied, their size fits an int, and however symbols of equal value are sorted,
   they lie in memory.
   */
  ghost predicate CanCopy(symbols: seq<Option<Symbol>>, shndx: int, total: nat, mem: seq<byte>) {
    var sel := Selected(symbols, shndx);
    !TooMany(symbols, shndx) && |sel| > 0 ==>
      var size := Share(total, |sel|);
      size < BpfIsa.TWO_31 && forall order :: Sorting(order, sel, ValueOf()) ==> AllInside(mem, size, Room(order))
  }

  /** The symbols that come first, however those of equal value are sorted, are acceptable. */
  ghost predicate LeadAcceptable(data: seq<byte>, size: nat, sel: seq<Symbol>) {
    forall order :: Sorting(order, sel, ValueOf()) ==> AllAcceptable(data, size, LOADER_DEF, Room(order))
  }

  /** One sorted order settles that. */
  lemma LeadIsSettled(data: seq<byte>, size: nat, sym: seq<Symbol>, sel: seq<Symbol>)
    requires Sorting(sym, sel, ValueOf())
    ensures LeadAcceptable(data, size, sel) <==> AllAcceptable(data, size, LOADER_DEF, Room(sym))
  {
    if AllAcceptable(data, size, LOADER_DEF, Room(sym)) {
      forall order: seq<Symbol>, i | Sorting(order, sel, ValueOf()) && 0 <= i < |Room(order)|
        ensures Acceptable(data, size, LOADER_DEF, Room(order)[i])
      {
        SortedKeys(order, sym, ValueOf(), i);
        assert ValueOf()(order[i]) == order[i].value && ValueOf()(sym[i]) == sym[i].value;
        assert Acceptable(data, size, LOADER_DEF, Room(sym)[i]);
      }
    }
  }

  /**
   load_elf_maps_section, on a section of `total` bytes that begins with `mem`: definitions may end
   behind the section, as long as there is memory to read.  Without a map it divides by zero.  The
   table is overrun exactly if one map too many passes the assertion and the maps in front of it, in
   the order of their offsets, are acceptable.
   */
  method LoadElfMapsSection(symbols: Option<seq<Option<Symbol>>>, shndx: int, section: Option<nat>, mem: seq<byte>)
    returns (r: Result<seq<Entry>, Errno>)
    requires section.Some? && symbols.Some? ==> CanCopy(symbols.value, shndx, section.value, mem)
    ensures
      if shndx < 0 || symbols.None? || section.None? then r == Err(EINVAL)
      else if TooMany(symbols.value, shndx) then r == Err(Abort)
      else
        var sel := Selected(symbols.value, shndx);
        if |sel| == 0 then r == Err(Crash)
        else
          var size := Share(section.value, |sel|);
          if |sel| > MAX_MAPS then r == Err(if LeadAcceptable(mem, size, sel) then Overrun else EFBIG)
          else if AllAcceptable(mem, size, LOADER_DEF, sel) then
            r.Ok? && Sorting(r.value, Entries(mem, size, LOADER_DEF, sel), OffsetOf())
          else r == Err(EFBIG)
  {
    if shndx < 0 || symbols.None? || section.None? {
      return Err(EINVAL);
    }
    var collected := CollectSymbols(symbols.value, shndx);
    if collected.Err? {
      return Err(collected.error);
    }
    var sel := collected.value;
    var sym := Qsort(sel, CmpSymbols, ValueOf());
    SameLength(sym, sel);
    if |sym| == 0 {
      return Err(Crash);
    }
    var size := Share(section.value, |sym|);
    assert Sorting(sym, sel, ValueOf());
    r := CopyMaps(sym, mem, size);
    CopiedAlike(mem, size, LOADER_DEF, sym, sel);
    LeadIsSettled(mem, size, sym, sel);
  }

  /** 33 maps that end the symbol table, each acceptable: the last is written behind the table of the loader. */
  lemma ThirtyThreeMaps(symbols: seq<Option<Symbol>>)
    requires |symbols| == MAX_MAPS + 1
    requires forall i :: 0 <= i < |symbols| ==> symbols[i] == Some(Symbol(5, i * LOADER_DEF, 0))
    ensures !TooMany(symbols, 5) && |Selected(symbols, 5)| == MAX_MAPS + 1
    ensures LeadAcceptable(Zeros((MAX_MAPS + 1) * LOADER_DEF), LOADER_DEF, Selected(symbols, 5))
  {
    var data := Zeros((MAX_MAPS + 1) * LOADER_DEF);
    AllSelected(symbols, 5);
    AllSelected(symbols[..MAX_MAPS], 5);
    forall order: seq<Symbol>, i | Sorting(order, Selected(symbols, 5), ValueOf()) && 0 <= i < |Room(order)|
      ensures Acceptable(data, LOADER_DEF, LOADER_DEF, Room(order)[i])
    {
      SameMembers(order, Selected(symbols, 5), order[i]);
      EndsInside(data, order[i]);
    }
  }

  lemma EndsInside(data: seq<byte>, s: Symbol)
    requires s.value + LOADER_DEF <= |data|
    ensures Acceptable(data, LOADER_DEF, LOADER_DEF, s)
  {
  }

  lemma {:induction false} AllSelected(symbols: seq<Option<Symbol>>, shndx: int)
    requires forall i :: 0 <= i < |symbols| ==> symbols[i].Some? && symbols[i].value.shndx == shndx
    ensures |Selected(symbols, shndx)| == |symbols|
    ensures forall i :: 0 <= i < |symbols| ==> Selected(symbols, shndx)[i] == symbols[i].value
  {
    if |symbols| > 0 {
      AllSelected(symbols[..|symbols| - 1], shndx);
    }
  }

  /** Copying in offset order gives the sorted table of the symbols in file order. */
  lemma CopiedAlike(data: seq<byte>, size: nat, known: nat, sym: seq<Symbol>, sel: seq<Symbol>)
    requires Sorting(sym, sel, ValueOf())
    ensures AllAcceptable(data, size, known, sym) <==> AllAcceptable(data, size, known, sel)
    ensures AllAcceptable(data, size, known, sel) ==>
            Sorting(Entries(data, size, known, sym), Entries(data, size, known, sel), OffsetOf())
  {
    if AllAcceptable(data, size, known, sym) {
      AcceptableAlike(data, size, known, sym, sel);
      EntriesRearranged(data, size, known, sym, sel);
      EntriesSorted(data, size, known, sym);
    } else if AllAcceptable(data, size, known, sel) {
      AcceptableAlike(data, size, known, sel, sym);
    }
  }

  predicate AllInside(data: seq<byte>, size: nat, sel: seq<Symbol>) {
    forall i :: 0 <= i < |sel| ==> Inside(data, size, sel[i])
  }

  lemma SameLength<T>(a: seq<T>, b: seq<T>)
    requires multiset(a) == multiset(b)
    ensures |a| == |b|
  {
    assert |a| == |multiset(a)| && |b| == |multiset(b)|;
  }

  lemma EntriesSorted(data: seq<byte>, size: nat, known: nat, sel: seq<Symbol>)
    requires AllAcceptable(data, size, known, sel) && SortedBy(sel, ValueOf())
    ensures SortedBy(Entries(data, size, known, sel), OffsetOf())
  {
    forall i, j | 0 <= i < j < |sel|
      ensures sel[i].value <= sel[j].value
    {
      assert ValueOf()(sel[i]) <= ValueOf()(sel[j]);
    }
  }

  lemma SameMembers<T>(a: seq<T>, b: seq<T>, x: T)
    requires multiset(a) == multiset(b) && x in a
    ensures x in b
  {
    assert x in multiset(a);
  }

  lemma AcceptableAlike(data: seq<byte>, size: nat, known: nat, a: seq<Symbol>, b: seq<Symbol>)
    requires multiset(a) == multiset(b) && AllAcceptable(data, size, known, a)
    ensures AllAcceptable(data, size, known, b)
  {
    forall i | 0 <= i < |b|
      ensures Acceptable(data, size, known, b[i])
    {
      SameMembers(b, a, b[i]);
    }
  }

  lemma AcceptableWithout(data: seq<byte>, size: nat, known: nat, b: seq<Symbol>, j: nat)
    requires AllAcceptable(data, size, known, b) && j < |b|
    ensures AllAcceptable(data, size, known, Without(b, j))
    ensures Entries(data, size, known, Without(b, j)) == Without(Entries(data, size, known, b), j)
  {
  }

  function Without<T>(s: seq<T>, j: nat): (r: seq<T>)
    requires j < |s|
    ensures |r| == |s| - 1 && forall i :: 0 <= i < |r| ==> r[i] == s[if i < j then i else i + 1]
  {
    s[..j] + s[j + 1..]
  }

  lemma TakeOut<T>(s: seq<T>, j: nat)
    requires j < |s|
    ensures multiset(s) == multiset(Without(s, j)) + multiset{s[j]}
  {
    assert s == s[..j] + [s[j]] + s[j + 1..];
  }

  /** Rearranging the symbols rearranges the entries. */
  lemma {:induction false} EntriesRearranged(data: seq<byte>, size: nat, known: nat, a: seq<Symbol>, b: seq<Symbol>)
    requires multiset(a) == multiset(b)
    requires AllAcceptable(data, size, known, a) && AllAcceptable(data, size, known, b)
    ensures multiset(Entries(data, size, known, a)) == multiset(Entries(data, size, known, b))
  {
    SameLength(a, b);
    if |a| > 0 {
      SameMembers(a, b, a[0]);
      var j :| 0 <= j < |b| && b[j] == a[0];
      SameWithout(a, 0, b, j);
      AcceptableWithout(data, size, known, a, 0);
      AcceptableWithout(data, size, known, b, j);
      EntriesRearranged(data, size, known, Without(a, 0), Without(b, j));
      TakeOut(Entries(data, size, known, a), 0);
      TakeOut(Entries(data, size, known, b), j);
    }
  }

  lemma SameWithout<T>(a: seq<T>, i: nat, b: seq<T>, j: nat)
    requires multiset(a) == multiset(b) && i < |a| && j < |b| && a[i] == b[j]
    ensures multiset(Without(a, i)) == multiset(Without(b, j))
  {
    TakeOut(a, i);
    TakeOut(b, j);
    Cancel(multiset(Without(a, i)), multiset(Without(b, j)), a[i]);
  }
}
