/** The maps of a section in terms of its bytes: what is accepted, what is read, and that written maps come back. */
module MapFiles {
  import opened Wrappers
  import opened Bytes
  import opened MapLoader
  import BpfIsa

  // ----- what is read -----

  /** The share of a map: as many whole bytes as fill the section no further than its end. */
  lemma ShareFills(total: nat, n: nat)
    requires n > 0
    ensures n * Share(total, n) <= total < n * (Share(total, n) + 1)
  {
  }

  lemma ShareIs(total: nat, n: nat, size: nat)
    requires n > 0 && n * size == total
    ensures Share(total, n) == size && total % n == 0
  {
    assert total == size * n + 0;
    ModUnique(total, size, 0, n);
  }

  /** A definition of `size` bytes is accepted if it stands in the section and is zero behind the known ones. */
  predicate Readable(data: seq<byte>, size: nat, known: nat, value: nat) {
    value + size <= |data| && forall b :: value + known <= b < value + size ==> data[b] == 0
  }

  lemma AcceptableIff(data: seq<byte>, size: nat, known: nat, s: Symbol)
    ensures Acceptable(data, size, known, s) <==> Readable(data, size, known, s.value)
  {
    if s.value + size <= |data| {
      var bs := data[s.value..s.value + size];
      if known < size {
        forall b | s.value + known <= b < s.value + size
          ensures data[b] == bs[known..][b - s.value - known]
        {
        }
        forall i | 0 <= i < size - known
          ensures bs[known..][i] == data[s.value + known + i]
        {
        }
      }
    }
  }

  /** The records fill the section exactly, and each is accepted. */
  predicate Fill(sel: seq<Symbol>, data: seq<byte>, size: nat) {
    size > 0 && |sel| * size == |data| && forall i :: 0 <= i < |sel| ==> Readable(data, size, 20, sel[i].value)
  }

  /** libbpf accepts no map at all, or maps of one size that fill the section. */
  lemma AcceptsIff(sel: seq<Symbol>, data: seq<byte>)
    ensures LibbpfAccepts(sel, data) <==> |sel| == 0 || exists size: nat :: Fill(sel, data, size)
  {
    if |sel| > 0 {
      var size := Share(|data|, |sel|);
      forall i | 0 <= i < |sel|
        ensures Acceptable(data, size, LIBBPF_DEF, sel[i]) <==> Readable(data, size, 20, sel[i].value)
      {
        AcceptableIff(data, size, LIBBPF_DEF, sel[i]);
      }
      if LibbpfAccepts(sel, data) {
        ShareIsPositive(|data|, |sel|);
        assert |sel| * size == |data|;
        assert Fill(sel, data, size);
      }
      if size' : nat :| Fill(sel, data, size') {
        ShareIs(|data|, |sel|, size');
        MulAtLeast(|sel|, size');
      }
    }
  }

  /** An entry is its symbol's, with the bytes that stand there and zeros for those that do not. */
  lemma EntriesStand(data: seq<byte>, size: nat, known: nat, sel: seq<Symbol>, i: nat)
    requires AllAcceptable(data, size, known, sel) && i < |sel|
    ensures
      var e := Entries(data, size, known, sel)[i];
      e.offset == sel[i].value && e.name == sel[i].name && |e.def| == known &&
      forall b :: 0 <= b < known ==> e.def[b] == if b < size then data[sel[i].value + b] else 0
  {
    assert Acceptable(data, size, known, sel[i]);
  }

  // ----- written maps -----

  /** A definition says no more than `size` bytes can hold. */
  predicate Fits(d: seq<byte>, size: nat) {
    |d| == 20 && forall b :: size <= b < 20 ==> d[b] == 0
  }

  predicate AllFit(defs: seq<seq<byte>>, size: nat) {
    forall i :: 0 <= i < |defs| ==> Fits(defs[i], size)
  }

  /** A definition in `size` bytes. */
  function Written(d: seq<byte>, size: nat): (bs: seq<byte>)
    requires |d| == 20
    ensures |bs| == size
  {
    if size <= 20 then d[..size] else d + Zeros(size - 20)
  }

  /** The section: one definition behind the other. */
  function WrittenAll(defs: seq<seq<byte>>, size: nat): (bs: seq<byte>)
    requires AllFit(defs, size)
    ensures |bs| == |defs| * size
  {
    if |defs| == 0 then []
    else
      assert defs == defs[..|defs| - 1] + [defs[|defs| - 1]];
      OneMore(|defs| - 1, size);
      WrittenAll(defs[..|defs| - 1], size) + Written(defs[|defs| - 1], size)
  }

  lemma OneMore(n: nat, size: nat)
    ensures (n + 1) * size == n * size + size
  {
  }

  lemma SliceOfFront(front: seq<byte>, back: seq<byte>, at: nat, size: nat)
    requires at + size <= |front|
    ensures (front + back)[at..at + size] == front[at..at + size]
  {
  }

  /** Each definition stands in its place. */
  lemma {:induction false} WrittenAt(defs: seq<seq<byte>>, size: nat, i: nat, at: nat)
    requires AllFit(defs, size) && i < |defs| && at == i * size
    ensures at + size <= |WrittenAll(defs, size)|
    ensures WrittenAll(defs, size)[at..at + size] == Written(defs[i], size)
    decreases |defs|
  {
    var n := |defs| - 1;
    var w := WrittenAll(defs[..n], size);
    assert WrittenAll(defs, size) == w + Written(defs[n], size);
    if i < n {
      WrittenAt(defs[..n], size, i, at);
      SliceOfFront(w, Written(defs[n], size), at, size);
    }
  }

  /** The symbols name the definitions one after the other. */
  predicate NameAll(sel: seq<Symbol>, n: nat, size: nat) {
    |sel| == n && forall i :: 0 <= i < n ==> sel[i].value == i * size
  }

  /** The table that should come back. */
  function Table(sel: seq<Symbol>, defs: seq<seq<byte>>, size: nat): (es: seq<Entry>)
    requires |sel| == |defs|
    ensures |es| == |defs|
  {
    seq(|defs|, i requires 0 <= i < |defs| => Entry(i * size, sel[i].name, defs[i]))
  }

  lemma WrittenIsReadable(defs: seq<seq<byte>>, size: nat, i: nat)
    requires AllFit(defs, size) && i < |defs|
    ensures Readable(WrittenAll(defs, size), size, 20, i * size)
    ensures forall b :: 0 <= b < 20 && b < size ==> WrittenAll(defs, size)[i * size + b] == defs[i][b]
  {
    var data, bs := WrittenAll(defs, size), Written(defs[i], size);
    var at := i * size;
    WrittenAt(defs, size, i, at);
    forall b | 0 <= b < size
      ensures data[at + b] == bs[b]
    {
      assert data[at..at + size][b] == bs[b];
    }
    forall b | at + 20 <= b < at + size
      ensures data[b] == 0
    {
      assert data[at + (b - at)] == bs[b - at];
    }
  }

  /** A section of written definitions is accepted, and its entries are the definitions. */
  lemma WrittenComesBack(defs: seq<seq<byte>>, size: nat, sel: seq<Symbol>)
    requires AllFit(defs, size) && size > 0 && |defs| > 0 && NameAll(sel, |defs|, size)
    ensures
      var data := WrittenAll(defs, size);
      LibbpfAccepts(sel, data) && Share(|data|, |defs|) == size &&
      Entries(data, size, LIBBPF_DEF, sel) == Table(sel, defs, size)
  {
    var data := WrittenAll(defs, size);
    forall i | 0 <= i < |sel|
      ensures Readable(data, size, 20, sel[i].value) && Acceptable(data, size, LIBBPF_DEF, sel[i])
    {
      WrittenIsReadable(defs, size, i);
      AcceptableIff(data, size, LIBBPF_DEF, sel[i]);
    }
    assert Fill(sel, data, size);
    AcceptsIff(sel, data);
    ShareIs(|data|, |defs|, size);
    forall i | 0 <= i < |sel|
      ensures Entries(data, size, LIBBPF_DEF, sel)[i] == Table(sel, defs, size)[i]
    {
      EntriesStand(data, size, LIBBPF_DEF, sel, i);
      WrittenIsReadable(defs, size, i);
      assert Fits(defs[i], size);
      assert Entries(data, size, LIBBPF_DEF, sel)[i].def == defs[i];
    }
  }

  lemma PlacesGrow(i: nat, j: nat, size: nat)
    requires i < j && size > 0
    ensures i * size < j * size
  {
    MulAtLeast(j - i, size);
    assert j * size == i * size + (j - i) * size;
  }

  lemma TableIsSorted(sel: seq<Symbol>, defs: seq<seq<byte>>, size: nat)
    requires |sel| == |defs| && size > 0
    ensures SortedBy(Table(sel, defs, size), OffsetOf()) && DistinctBy(Table(sel, defs, size), OffsetOf())
  {
    var es := Table(sel, defs, size);
    forall i, j | 0 <= i < j < |es|
      ensures OffsetOf()(es[i]) < OffsetOf()(es[j])
    {
      PlacesGrow(i, j, size);
    }
  }

  /** Maps written to a section of less than 2^31 bytes are the table libbpf reads. */
  method InitWritten(defs: seq<seq<byte>>, size: nat, symbols: seq<Option<Symbol>>, shndx: nat)
    returns (r: Result<seq<Entry>, Errno>)
    requires AllFit(defs, size) && size > 0 && |defs| > 0 && NameAll(Selected(symbols, shndx), |defs|, size)
    requires |defs| * size < BpfIsa.TWO_31
    ensures r == Ok(Table(Selected(symbols, shndx), defs, size))
  {
    var sel := Selected(symbols, shndx);
    MulAtLeast(|defs|, size);
    WrittenComesBack(defs, size, sel);
    r := InitMaps(Some(symbols), shndx, Some(WrittenAll(defs, size)));
    SmallSectionsAreSorted(WrittenAll(defs, size), sel);
    TableIsSorted(sel, defs, size);
    SortingIsUnique(r.value, Table(sel, defs, size), OffsetOf());
  }
}
