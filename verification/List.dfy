/**
 The kernel's circular doubly linked lists.  A head and its entries form a ring of
 nodes; every operation relinks a few of them and refines a sequence operation.
 */
module List {

  /** struct list_head.  A poisoned pointer is modelled by null. */
  class Node {
    var next: Node?
    var prev: Node?

    constructor ()
      ensures next == null && prev == null
    {
      next, prev := null, null;
    }
  }

  /** The position after, and before, position `i` of a ring of `n` nodes. */
  function After(i: nat, n: nat): nat
    requires i < n
  {
    if i + 1 == n then 0 else i + 1
  }

  function Before(i: nat, n: nat): nat
    requires i < n
  {
    if i == 0 then n - 1 else i - 1
  }

  predicate Distinct(r: seq<Node>) {
    forall i, j :: 0 <= i < j < |r| ==> r[i] != r[j]
  }

  /** The nodes of `r` point at each other in a ring, in this order. */
  ghost predicate Ring(r: seq<Node>)
    reads r
  {
    |r| > 0 && Distinct(r) &&
    (forall i :: 0 <= i < |r| ==> r[i].next == r[After(i, |r|)]) &&
    (forall i :: 0 <= i < |r| ==> r[i].prev == r[Before(i, |r|)])
  }

  /** The list with head `head` holds the entries `s`. */
  ghost predicate IsList(head: Node, s: seq<Node>)
    reads [head] + s
  {
    Ring([head] + s)
  }

  method InitListHead(list: Node)
    modifies list
    ensures IsList(list, [])
  {
    list.next := list;
    list.prev := list;
  }

  // ----- a ring has no beginning -----

  function Rotated<T>(r: seq<T>, k: nat): seq<T>
    requires k <= |r|
  {
    r[k..] + r[..k]
  }

  lemma RotatedParts<T>(a: seq<T>, b: seq<T>)
    ensures Rotated(a + b, |a|) == b + a
  {
  }

  /** The ring of `a` followed by `b` is the ring of `b` followed by `a`. */
  lemma SwapParts(a: seq<Node>, b: seq<Node>)
    requires Ring(a + b)
    ensures Ring(b + a)
  {
    Rotate(a + b, |a|);
    RotatedParts(a, b);
  }

  lemma RotatedAt(r: seq<Node>, j: nat)
    requires j < |r|
    ensures Rotated(r, 1)[j] == r[After(j, |r|)]
  {
  }

  lemma RotatedIsDistinct(r: seq<Node>)
    requires Distinct(r) && |r| > 0
    ensures Distinct(Rotated(r, 1))
  {
    forall i, j | 0 <= i < j < |r|
      ensures Rotated(r, 1)[i] != Rotated(r, 1)[j]
    {
      RotatedAt(r, i);
      RotatedAt(r, j);
    }
  }

  lemma RotatedPointers(r: seq<Node>, j: nat)
    requires Ring(r) && j < |r|
    ensures
      var t := Rotated(r, 1);
      t[j].next == t[After(j, |r|)] && t[j].prev == t[Before(j, |r|)]
  {
    var n, k := |r|, After(j, |r|);
    RotatedAt(r, j);
    RotatedAt(r, k);
    RotatedAt(r, Before(j, n));
    assert r[k].next == r[After(k, n)] && r[k].prev == r[Before(k, n)];
  }

  lemma RotateOnce(r: seq<Node>)
    requires Ring(r)
    ensures Ring(Rotated(r, 1))
  {
    RotatedIsDistinct(r);
    forall j | 0 <= j < |r|
      ensures Rotated(r, 1)[j].next == Rotated(r, 1)[After(j, |r|)]
      ensures Rotated(r, 1)[j].prev == Rotated(r, 1)[Before(j, |r|)]
    {
      RotatedPointers(r, j);
    }
  }

  /** Where a ring closes. */
  lemma RingCloses(r: seq<Node>)
    requires Ring(r)
    ensures r[0].prev == r[|r| - 1] && r[|r| - 1].next == r[0]
  {
    assert r[Before(0, |r|)] == r[|r| - 1];
    assert r[After(|r| - 1, |r|)] == r[0];
  }

  /** Any node of a ring may be taken as its first. */
  lemma {:induction false} Rotate(r: seq<Node>, k: nat)
    requires Ring(r) && k <= |r|
    ensures Ring(Rotated(r, k))
  {
    if k == 0 {
      assert Rotated(r, 0) == r;
    } else {
      Rotate(r, k - 1);
      RotateOnce(Rotated(r, k - 1));
      assert Rotated(Rotated(r, k - 1), 1) == Rotated(r, k);
    }
  }

  /** A stretch of a ring: the nodes of `x` follow one another, the first after `before`, the last before `behind`. */
  ghost predicate Stretch(before: Node, x: seq<Node>, behind: Node)
    requires x != []
    reads x
  {
    x[0].prev == before && x[|x| - 1].next == behind &&
    (forall j :: 0 <= j < |x| - 1 ==> x[j].next == x[j + 1]) &&
    (forall j :: 0 < j < |x| ==> x[j].prev == x[j - 1])
  }

  lemma FirstStretch(x: seq<Node>, a: seq<Node>)
    requires Ring(x + a) && x != [] && a != []
    ensures Stretch(a[|a| - 1], x, a[0])
  {
    var r := x + a;
    forall j | 0 <= j < |x|
      ensures j < |x| - 1 ==> x[j].next == x[j + 1]
      ensures j == |x| - 1 ==> x[j].next == a[0]
    {
      assert r[j].next == r[After(j, |r|)];
    }
    forall j | 0 <= j < |x|
      ensures j > 0 ==> x[j].prev == x[j - 1]
      ensures j == 0 ==> x[j].prev == a[|a| - 1]
    {
      assert r[j].prev == r[Before(j, |r|)];
    }
  }

  lemma RingToStretches(x: seq<Node>, a: seq<Node>)
    requires Ring(x + a) && x != [] && a != []
    ensures Stretch(a[|a| - 1], x, a[0]) && Stretch(x[|x| - 1], a, x[0])
  {
    FirstStretch(x, a);
    SwapParts(x, a);
    FirstStretch(a, x);
  }

  lemma StretchToRing(x: seq<Node>)
    requires x != [] && Distinct(x) && Stretch(x[|x| - 1], x, x[0])
    ensures Ring(x)
  {
  }

  lemma StretchToList(a: seq<Node>, list: Node)
    requires a != [] && Distinct(a + [list]) && Stretch(list, a, list)
    requires list.next == a[0] && list.prev == a[|a| - 1]
    ensures Ring(a + [list])
  {
  }

  // ----- linking and unlinking one node -----

  /** __list_add: `node` between the last and the first node of the ring `r`. */
  method ListAddBetween(node: Node, prev: Node, next: Node, ghost r: seq<Node>)
    requires Ring(r) && prev == r[|r| - 1] && next == r[0] && node !in r
    modifies node, prev, next
    ensures Ring(r + [node])
  {
    next.prev := node;
    node.next := next;
    node.prev := prev;
    prev.next := node;
  }

  lemma HeadLast(head: Node, s: seq<Node>)
    requires IsList(head, s)
    ensures Ring(s + [head])
  {
    SwapParts([head], s);
  }

  lemma NodeFirst(head: Node, node: Node, s: seq<Node>)
    requires Ring(s + [head] + [node])
    ensures IsList(head, [node] + s)
  {
    assert s + [head] + [node] == s + [head, node];
    SwapParts(s, [head, node]);
    assert [head, node] + s == [head] + ([node] + s);
  }

  method ListAdd(node: Node, head: Node, ghost s: seq<Node>)
    requires IsList(head, s) && node !in [head] + s
    modifies node, head, head.next
    ensures IsList(head, [node] + s)
  {
    HeadLast(head, s);
    RingCloses(s + [head]);
    ListAddBetween(node, head, head.next, s + [head]);
    NodeFirst(head, node, s);
  }

  method ListAddTail(node: Node, head: Node, ghost s: seq<Node>)
    requires IsList(head, s) && node !in [head] + s
    modifies node, head, head.prev
    ensures IsList(head, s + [node])
  {
    RingCloses([head] + s);
    ListAddBetween(node, head.prev, head, [head] + s);
    assert [head] + s + [node] == [head] + (s + [node]);
  }

  /** The nodes of `z` follow one another. */
  ghost predicate Follow(z: seq<Node>)
    reads z
  {
    Distinct(z) &&
    (forall j :: 0 <= j < |z| - 1 ==> z[j].next == z[j + 1]) &&
    (forall j :: 0 < j < |z| ==> z[j].prev == z[j - 1])
  }

  /** In a ring all nodes but the last follow one another, and its neighbours are their ends. */
  lemma RingFollows(z: seq<Node>, last: Node)
    requires Ring(z + [last]) && z != []
    ensures Follow(z) && last !in z
  {
    var r := z + [last];
    RingToStretches(z, [last]);
    forall i, j | 0 <= i < j < |z|
      ensures z[i] != z[j]
    {
      assert r[i] != r[j];
    }
    forall i | 0 <= i < |z|
      ensures z[i] != last
    {
      assert r[i] != r[|z|];
    }
  }

  lemma EndsApart(z: seq<Node>)
    requires z != [] && Distinct(z)
    ensures forall j :: 0 <= j < |z| - 1 ==> z[j] != z[|z| - 1]
    ensures forall j :: 0 < j < |z| ==> z[j] != z[0]
  {
  }

  /** The two writes that close `z` to a ring. */
  method Join(prev: Node, next: Node, ghost z: seq<Node>)
    requires z != [] && prev == z[|z| - 1] && next == z[0]
    requires forall j :: 0 <= j < |z| - 1 ==> z[j] != prev && z[j].next == z[j + 1]
    requires forall j :: 0 < j < |z| ==> z[j] != next && z[j].prev == z[j - 1]
    modifies prev, next
    ensures Stretch(prev, z, next)
  {
    next.prev := prev;
    prev.next := next;
  }

  /** __list_del: the neighbours of the last node of the ring `z + [last]` point at each other. */
  method ListDelBetween(prev: Node, next: Node, ghost z: seq<Node>, ghost last: Node)
    requires Ring(z + [last]) && z != [] && prev == z[|z| - 1] && next == z[0]
    modifies prev, next
    ensures Ring(z)
  {
    RingFollows(z, last);
    EndsApart(z);
    Join(prev, next, z);
    StretchToRing(z);
  }

  /** __list_del_entry: the ring closes over `entry`, whose own pointers stay. */
  method ListDelEntry(entry: Node, ghost x: seq<Node>, ghost y: seq<Node>)
    requires Ring(x + [entry] + y) && |x| + |y| > 0
    modifies entry.prev, entry.next
    ensures Ring(x + y) && entry !in x + y
    ensures entry.prev == old(entry.prev) && entry.next == old(entry.next)
  {
    ghost var z := y + x;
    assert x + [entry] + y == (x + [entry]) + y;
    SwapParts(x + [entry], y);
    assert y + (x + [entry]) == z + [entry];
    Neighbours(z, entry);
    RingFollows(z, entry);
    ListDelBetween(entry.prev, entry.next, z, entry);
    SwapParts(y, x);
  }

  /** The neighbours of the last node. */
  lemma Neighbours(z: seq<Node>, entry: Node)
    requires Ring(z + [entry]) && |z| > 0
    ensures entry.prev == z[|z| - 1] && entry.next == z[0]
  {
    var r := z + [entry];
    RingCloses(r);
    assert r[|z|].prev == r[Before(|z|, |r|)];
  }

  /** __list_del_entry on an entry of the list of `head`. */
  method ListDelFrom(entry: Node, ghost head: Node, ghost a: seq<Node>, ghost b: seq<Node>)
    requires IsList(head, a + [entry] + b)
    modifies entry.prev, entry.next
    ensures IsList(head, a + b) && entry !in [head] + (a + b)
    ensures forall n :: n in [head] + (a + b) ==> n in [head] + (a + [entry] + b)
    ensures entry in [head] + (a + [entry] + b)
  {
    assert [head] + (a + [entry] + b) == ([head] + a) + [entry] + b;
    EntryNeighbours([head] + a, entry, b);
    ListDelEntry(entry, [head] + a, b);
    assert [head] + a + b == [head] + (a + b);
  }

  method ListDel(entry: Node, head: Node, ghost a: seq<Node>, ghost b: seq<Node>)
    requires IsList(head, a + [entry] + b)
    modifies entry, entry.prev, entry.next
    ensures IsList(head, a + b) && entry.next == null && entry.prev == null
  {
    ListDelFrom(entry, head, a, b);
    entry.next := null;
    entry.prev := null;
  }

  method ListDelInit(entry: Node, head: Node, ghost a: seq<Node>, ghost b: seq<Node>)
    requires IsList(head, a + [entry] + b)
    modifies entry, entry.prev, entry.next
    ensures IsList(head, a + b) && IsList(entry, [])
  {
    ListDelFrom(entry, head, a, b);
    InitListHead(entry);
  }

  /** Everything that relinking an entry touches belongs to its list. */
  lemma ListNeighbours(head: Node, a: seq<Node>, entry: Node, b: seq<Node>)
    requires IsList(head, a + [entry] + b)
    ensures entry in [head] + (a + [entry] + b)
    ensures entry.prev in [head] + (a + [entry] + b) && entry.next in [head] + (a + [entry] + b)
  {
    assert [head] + (a + [entry] + b) == ([head] + a) + [entry] + b;
    EntryNeighbours([head] + a, entry, b);
  }

  /** The pointers of a ring around its last node, which may be the only one. */
  ghost predicate ClosedBy(z: seq<Node>, last: Node)
    reads z, last
  {
    if z == [] then last.next == last && last.prev == last
    else Stretch(last, z, last) && last.next == z[0] && last.prev == z[|z| - 1]
  }

  lemma RingClosedBy(z: seq<Node>, last: Node)
    requires Distinct(z + [last])
    ensures Ring(z + [last]) <==> ClosedBy(z, last)
  {
    if z == [] {
      assert (z + [last])[0] == last;
      if Ring(z + [last]) {
        RingCloses(z + [last]);
      }
    } else if Ring(z + [last]) {
      RingToStretches(z, [last]);
    } else if ClosedBy(z, last) {
      StretchToList(z, last);
    }
  }

  lemma DistinctLast(z: seq<Node>, gone: Node, node: Node)
    requires Distinct(z + [gone]) && node !in z
    ensures Distinct(z + [node]) && Distinct(z) && gone !in z
  {
    var r := z + [gone];
    assert r[|z|] == gone;
    forall i | 0 <= i < |z|
      ensures z[i] != gone && z[i] == r[i]
    {
      assert r[i] != r[|z|];
    }
  }

  /** list_replace, with `gone` the last node of the ring. */
  method ListReplaceLast(gone: Node, node: Node, ghost z: seq<Node>)
    requires ClosedBy(z, gone) && Distinct(z) && node !in z && gone !in z && node != gone
    modifies node, gone.next, gone.prev
    ensures ClosedBy(z, node)
  {
    node.next := gone.next;
    node.next.prev := node;
    node.prev := gone.prev;
    node.prev.next := node;
  }

  /** The same, on a whole ring. */
  method ListReplaceEnd(gone: Node, node: Node, ghost z: seq<Node>)
    requires Ring(z + [gone]) && node !in z + [gone]
    modifies node, gone.next, gone.prev
    ensures Ring(z + [node])
  {
    assert gone in z + [gone] && forall n :: n in z ==> n in z + [gone];
    DistinctLast(z, gone, node);
    RingClosedBy(z, gone);
    ListReplaceLast(gone, node, z);
    RingClosedBy(z, node);
  }

  /** `node` takes the place of `gone`, be it an entry or a head. */
  method ListReplace(gone: Node, node: Node, ghost x: seq<Node>, ghost y: seq<Node>)
    requires Ring(x + [gone] + y) && node !in x + [gone] + y
    modifies node, gone.next, gone.prev
    ensures Ring(x + [node] + y)
  {
    SwapParts(x + [gone], y);
    assert y + (x + [gone]) == (y + x) + [gone];
    ListReplaceEnd(gone, node, y + x);
    assert (y + x) + [node] == y + (x + [node]);
    SwapParts(y, x + [node]);
  }

  method ListReplaceInit(gone: Node, node: Node, ghost x: seq<Node>, ghost y: seq<Node>)
    requires Ring(x + [gone] + y) && node !in x + [gone] + y
    modifies node, gone, gone.next, gone.prev
    ensures Ring(x + [node] + y) && IsList(gone, [])
  {
    GoneIsApart(gone, node, x, y);
    ListReplace(gone, node, x, y);
    InitListHead(gone);
  }

  lemma GoneIsApart(gone: Node, node: Node, x: seq<Node>, y: seq<Node>)
    requires Distinct(x + [gone] + y) && node != gone
    ensures gone !in x + [node] + y
  {
    var r, t := x + [gone] + y, x + [node] + y;
    assert r[|x|] == gone;
    forall j | 0 <= j < |t|
      ensures t[j] != gone
    {
      assert j != |x| ==> t[j] == r[j];
    }
  }

  // ----- moving an entry -----

  /** list_move within one list: the entry becomes the first. */
  method ListMove(entry: Node, head: Node, ghost a: seq<Node>, ghost b: seq<Node>)
    requires IsList(head, a + [entry] + b)
    modifies [head] + (a + [entry] + b)
    ensures IsList(head, [entry] + (a + b))
  {
    ListNeighbours(head, a, entry, b);
    ListDelFrom(entry, head, a, b);
    FirstOf(head, a + b);
    assert head in [head] + (a + b);
    ListAdd(entry, head, a + b);
  }

  /** list_move_tail within one list: the entry becomes the last. */
  method ListMoveTail(entry: Node, head: Node, ghost a: seq<Node>, ghost b: seq<Node>)
    requires IsList(head, a + [entry] + b)
    modifies [head] + (a + [entry] + b)
    ensures IsList(head, a + b + [entry])
  {
    ListNeighbours(head, a, entry, b);
    ListDelFrom(entry, head, a, b);
    FirstOf(head, a + b);
    assert head in [head] + (a + b);
    ListAddTail(entry, head, a + b);
  }

  predicate Apart(r: seq<Node>, t: seq<Node>) {
    forall n :: n in r ==> n !in t
  }

  /** Unlinking an entry leaves every ring it is not part of as it is. */
  method ListDelApart(entry: Node, ghost src: Node, ghost a: seq<Node>, ghost b: seq<Node>, ghost other: seq<Node>)
    requires IsList(src, a + [entry] + b) && Ring(other) && Apart([src] + (a + [entry] + b), other)
    modifies entry.prev, entry.next
    ensures IsList(src, a + b) && Ring(other) && entry !in [src] + (a + b) && entry !in other
    ensures Apart([src] + (a + b), other)
  {
    ListNeighbours(src, a, entry, b);
    ListDelFrom(entry, src, a, b);
  }

  /** Adding an entry leaves every other ring as it is. */
  method ListAddApart(node: Node, head: Node, ghost s: seq<Node>, ghost other: seq<Node>)
    requires IsList(head, s) && node !in [head] + s && node !in other && Ring(other) && Apart(other, [head] + s)
    modifies node, head, head.next
    ensures IsList(head, [node] + s) && Ring(other)
  {
    FirstOf(head, s);
    assert head in [head] + s;
    ListAdd(node, head, s);
  }

  /** list_move from the list of `src` to the front of another one. */
  method ListMoveAcross(entry: Node, head: Node, ghost src: Node, ghost a: seq<Node>, ghost b: seq<Node>,
                        ghost s: seq<Node>)
    requires IsList(src, a + [entry] + b) && IsList(head, s)
    requires Apart([src] + (a + [entry] + b), [head] + s)
    modifies entry, entry.prev, entry.next, head, head.next
    ensures IsList(src, a + b) && IsList(head, [entry] + s)
  {
    ListNeighbours(src, a, entry, b);
    FirstOf(head, s);
    ListDelApart(entry, src, a, b, [head] + s);
    ListAddApart(entry, head, s, [src] + (a + b));
  }

  /** Adding an entry at the end leaves every other ring as it is. */
  method ListAddTailApart(node: Node, head: Node, ghost s: seq<Node>, ghost other: seq<Node>)
    requires IsList(head, s) && node !in [head] + s && node !in other && Ring(other) && Apart(other, [head] + s)
    modifies node, head, head.prev
    ensures IsList(head, s + [node]) && Ring(other)
  {
    FirstOf(head, s);
    assert head in [head] + s;
    ListAddTail(node, head, s);
  }

  /** list_move_tail from the list of `src` to the end of another one. */
  method ListMoveTailAcross(entry: Node, head: Node, ghost src: Node, ghost a: seq<Node>, ghost b: seq<Node>,
                            ghost s: seq<Node>)
    requires IsList(src, a + [entry] + b) && IsList(head, s)
    requires Apart([src] + (a + [entry] + b), [head] + s)
    modifies entry, entry.prev, entry.next, head, head.prev
    ensures IsList(src, a + b) && IsList(head, s + [entry])
  {
    ListNeighbours(src, a, entry, b);
    FirstOf(head, s);
    ListDelApart(entry, src, a, b, [head] + s);
    ListAddTailApart(entry, head, s, [src] + (a + b));
  }

  /** list_rotate_left. */
  method ListRotateLeft(head: Node, ghost s: seq<Node>)
    requires IsList(head, s)
    modifies [head] + s
    ensures IsList(head, if s == [] then [] else s[1..] + [s[0]])
  {
    FirstOf(head, s);
    if head.next != head {
      assert s == [] + [s[0]] + s[1..];
      ListMoveTail(head.next, head, [], s[1..]);
      assert [] + s[1..] + [s[0]] == s[1..] + [s[0]];
    }
  }

  /** The node behind the head. */
  lemma FirstOf(head: Node, s: seq<Node>)
    requires IsList(head, s)
    ensures head.next == if s == [] then head else s[0]
    ensures head.prev == if s == [] then head else s[|s| - 1]
    ensures forall i :: 0 <= i < |s| ==> s[i] != head
    ensures head.next in [head] + s && head.prev in [head] + s
  {
    var r := [head] + s;
    assert r[0].next == r[After(0, |r|)] && r[0].prev == r[Before(0, |r|)];
    forall i | 0 <= i < |s|
      ensures s[i] != head
    {
      assert r[i + 1] == s[i];
    }
  }

  /** Everything that relinking an entry touches belongs to its list. */
  lemma EntryNeighbours(x: seq<Node>, entry: Node, y: seq<Node>)
    requires Ring(x + [entry] + y) && |x| + |y| > 0
    ensures entry in x + [entry] + y && entry.prev in x + [entry] + y && entry.next in x + [entry] + y
    ensures forall n :: n in x + y ==> n in x + [entry] + y
  {
    var r := x + [entry] + y;
    assert r[|x|] == entry && entry.next == r[After(|x|, |r|)] && entry.prev == r[Before(|x|, |r|)];
  }

  // ----- joining and cutting whole lists -----

  lemma StretchesToRing(z: seq<Node>, t: seq<Node>)
    requires z != [] && t != [] && Distinct(z + t)
    requires Stretch(t[|t| - 1], z, t[0]) && Stretch(z[|z| - 1], t, z[0])
    ensures Ring(z + t)
  {
    var u, m := z + t, |z|;
    forall j | 0 <= j < |u|
      ensures u[j].next == u[After(j, |u|)]
    {
      if j >= m {
        assert u[j] == t[j - m];
      }
    }
    forall j | 0 <= j < |u|
      ensures u[j].prev == u[Before(j, |u|)]
    {
      if j >= m {
        assert u[j] == t[j - m];
      }
    }
  }

  lemma DistinctParts(x: seq<Node>, a: seq<Node>, list: Node)
    requires Distinct(x + a) && list !in x + a
    ensures Distinct(x) && Distinct(a) && Distinct(a + [list]) && list !in x && list !in a
    ensures forall i, j :: 0 <= i < |x| && 0 <= j < |a| ==> x[i] != a[j]
  {
    var r, m, u := x + a, |x|, a + [list];
    forall i, j | 0 <= i < |x| && 0 <= j < |a|
      ensures x[i] != a[j]
    {
      assert r[i] != r[m + j];
    }
    forall i, j | 0 <= i < j < |x|
      ensures x[i] != x[j]
    {
      assert r[i] != r[j];
    }
    forall i, j | 0 <= i < j < |a|
      ensures a[i] != a[j]
    {
      assert r[m + i] != r[m + j];
    }
    forall i | 0 <= i < |a|
      ensures a[i] != list
    {
      assert r[m + i] in r;
    }
  }

  lemma DistinctConcat(z: seq<Node>, t: seq<Node>)
    requires Distinct(z) && Distinct(t) && Apart(t, z)
    ensures Distinct(z + t)
    ensures forall i, j :: 0 <= i < |z| && 0 <= j < |t| ==> z[i] != t[j]
  {
    forall i, j | 0 <= i < |z| && 0 <= j < |t|
      ensures z[i] != t[j]
    {
      assert t[j] in t;
    }
  }

  /** __list_splice: the stretch `t` comes between the last and the first node of the ring `z`. */
  method ListSpliceBetween(list: Node, prev: Node, next: Node, ghost t: seq<Node>, ghost z: seq<Node>)
    requires z != [] && t != [] && prev == z[|z| - 1] && next == z[0]
    requires Stretch(prev, z, next) && Stretch(list, t, list) && list.next == t[0] && list.prev == t[|t| - 1]
    requires Distinct(z) && Distinct(t) && list !in z && list !in t
    requires forall i, j :: 0 <= i < |z| && 0 <= j < |t| ==> z[i] != t[j]
    modifies list.next, list.prev, prev, next
    ensures Stretch(t[|t| - 1], z, t[0]) && Stretch(prev, t, next)
  {
    var first := list.next;
    var last := list.prev;
    first.prev := prev;
    prev.next := first;
    last.next := next;
    next.prev := last;
  }

  /** Splicing the entries of `list` into a ring. */
  method ListSpliceRing(list: Node, prev: Node, next: Node, ghost t: seq<Node>, ghost z: seq<Node>)
    requires IsList(list, t) && t != [] && Ring(z) && Apart([list] + t, z)
    requires prev == z[|z| - 1] && next == z[0]
    modifies list.next, list.prev, prev, next
    ensures Ring(z + t)
  {
    FirstOf(list, t);
    TailDistinct(list, t);
    assert list in [list] + t && Apart(t, z);
    DistinctConcat(z, t);
    RingToStretches([list], t);
    RingToStretch(z);
    ListSpliceBetween(list, prev, next, t, z);
    StretchesToRing(z, t);
  }

  lemma RingToStretch(z: seq<Node>)
    requires Ring(z)
    ensures Stretch(z[|z| - 1], z, z[0])
  {
    RingCloses(z);
  }

  lemma TailDistinct(head: Node, s: seq<Node>)
    requires Distinct([head] + s)
    ensures Distinct(s) && head !in s
  {
    var r := [head] + s;
    forall i, j | 0 <= i < j < |s|
      ensures s[i] != s[j]
    {
      assert r[i + 1] != r[j + 1];
    }
    forall i | 0 <= i < |s|
      ensures s[i] != head
    {
      assert r[0] != r[i + 1];
    }
  }

  lemma ApartSwap(r: seq<Node>, a: seq<Node>, b: seq<Node>)
    requires Apart(r, a + b)
    ensures Apart(r, b + a)
  {
    forall n | n in b + a
      ensures n in a + b
    {
      assert n in a || n in b;
    }
  }

  /** __list_splice between `head` and its successor. */
  method ListSpliceFront(list: Node, head: Node, ghost t: seq<Node>, ghost s: seq<Node>)
    requires IsList(list, t) && t != [] && IsList(head, s) && Apart([list] + t, [head] + s)
    modifies list.next, list.prev, head, head.next
    ensures IsList(head, t + s) && list !in [head] + (t + s)
  {
    ListIsApart(list, head, t, s);
    SwapParts([head], s);
    RingCloses(s + [head]);
    ApartSwap([list] + t, [head], s);
    ListSpliceRing(list, head, head.next, t, s + [head]);
    SpliceOrder(s, head, t);
  }

  lemma SpliceOrder(s: seq<Node>, head: Node, t: seq<Node>)
    requires Ring(s + [head] + t)
    ensures IsList(head, t + s)
  {
    assert s + [head] + t == s + ([head] + t);
    SwapParts(s, [head] + t);
    assert [head] + t + s == [head] + (t + s);
  }

  /** __list_splice between the predecessor of `head` and `head`. */
  method ListSpliceBack(list: Node, head: Node, ghost t: seq<Node>, ghost s: seq<Node>)
    requires IsList(list, t) && t != [] && IsList(head, s) && Apart([list] + t, [head] + s)
    modifies list.next, list.prev, head, head.prev
    ensures IsList(head, s + t) && list !in [head] + (s + t)
  {
    ListIsApart(list, head, t, s);
    RingCloses([head] + s);
    ListSpliceRing(list, head.prev, head, t, [head] + s);
    assert [head] + s + t == [head] + (s + t);
  }

  lemma ListIsApart(list: Node, head: Node, t: seq<Node>, s: seq<Node>)
    requires Distinct([list] + t) && Apart([list] + t, [head] + s)
    ensures list !in [head] + (t + s) && list !in [head] + (s + t)
  {
    TailDistinct(list, t);
    assert list in [list] + t;
  }

  /** list_splice: the entries of `list` come to the front; `list` itself is left dangling. */
  method ListSplice(list: Node, head: Node, ghost t: seq<Node>, ghost s: seq<Node>)
    requires IsList(list, t) && IsList(head, s) && Apart([list] + t, [head] + s)
    modifies list.next, list.prev, head, head.next
    ensures IsList(head, t + s)
  {
    FirstOf(list, t);
    if list.next != list {
      ListSpliceFront(list, head, t, s);
    } else {
      assert t + s == s;
    }
  }

  method ListSpliceTail(list: Node, head: Node, ghost t: seq<Node>, ghost s: seq<Node>)
    requires IsList(list, t) && IsList(head, s) && Apart([list] + t, [head] + s)
    modifies list.next, list.prev, head, head.prev
    ensures IsList(head, s + t)
  {
    FirstOf(list, t);
    if list.next != list {
      ListSpliceBack(list, head, t, s);
    } else {
      assert s + t == s;
    }
  }

  method ListSpliceInit(list: Node, head: Node, ghost t: seq<Node>, ghost s: seq<Node>)
    requires IsList(list, t) && IsList(head, s) && Apart([list] + t, [head] + s)
    modifies list, list.next, list.prev, head, head.next
    ensures IsList(head, t + s) && IsList(list, [])
  {
    FirstOf(list, t);
    if list.next != list {
      ListSpliceFront(list, head, t, s);
      InitListHead(list);
    } else {
      assert t + s == s;
    }
  }

  method ListSpliceTailInit(list: Node, head: Node, ghost t: seq<Node>, ghost s: seq<Node>)
    requires IsList(list, t) && IsList(head, s) && Apart([list] + t, [head] + s)
    modifies list, list.next, list.prev, head, head.prev
    ensures IsList(head, s + t) && IsList(list, [])
  {
    FirstOf(list, t);
    if list.next != list {
      ListSpliceBack(list, head, t, s);
      InitListHead(list);
    } else {
      assert s + t == s;
    }
  }

  /** __list_cut_position: the stretch `a`, from behind `head` to `entry`, closes over `list`, the rest over itself. */
  method ListCutBetween(list: Node, head: Node, entry: Node, ghost x: seq<Node>, ghost a: seq<Node>)
    requires x != [] && a != [] && head == x[|x| - 1] && entry == a[|a| - 1]
    requires Stretch(entry, x, a[0]) && Stretch(head, a, x[0])
    requires Distinct(x) && Distinct(a) && list !in x && list !in a
    requires forall i, j :: 0 <= i < |x| && 0 <= j < |a| ==> x[i] != a[j]
    modifies list, head, head.next, entry, entry.next
    ensures Stretch(list, a, list) && list.next == a[0] && list.prev == a[|a| - 1]
    ensures Stretch(head, x, x[0])
  {
    var newFirst := entry.next;
    list.next := head.next;
    list.next.prev := list;
    list.prev := entry;
    entry.next := list;
    head.next := newFirst;
    newFirst.prev := head;
  }

  /** list_cut_position, at the entry behind which `b` begins. */
  method ListCutAt(list: Node, head: Node, entry: Node, ghost a: seq<Node>, ghost b: seq<Node>)
    requires IsList(head, a + b) && a != [] && entry == a[|a| - 1] && list !in [head] + (a + b)
    modifies list, head, head.next, entry, entry.next
    ensures IsList(list, a) && IsList(head, b)
  {
    ghost var x := b + [head];
    assert [head] + (a + b) == ([head] + a) + b;
    SwapParts([head] + a, b);
    assert b + ([head] + a) == x + a;
    assert list !in x + a;
    DistinctParts(x, a, list);
    RingToStretches(x, a);
    ListCutBetween(list, head, entry, x, a);
    StretchToList(a, list);
    StretchToRing(x);
    SwapParts(a, [list]);
    SwapParts(b, [head]);
  }

  /** INIT_LIST_HEAD on a node outside the ring `other`. */
  method InitApart(list: Node, ghost other: seq<Node>)
    requires Ring(other) && list !in other
    modifies list
    ensures IsList(list, []) && Ring(other)
  {
    InitListHead(list);
  }

  /** Where a list may be cut: behind `a`, or nowhere if `entry` is the head. */
  ghost predicate CutsAt(head: Node, entry: Node, a: seq<Node>, b: seq<Node>) {
    if a != [] then entry == a[|a| - 1] else |b| <= 1 || entry == head
  }

  /** The cut leaves `list` as it is. */
  ghost predicate Untouched(head: Node, entry: Node, a: seq<Node>, b: seq<Node>) {
    a == [] && (b == [] || entry != head)
  }

  /**
   list_cut_position.  On an empty list nothing happens, not even to `list`; nor on a
   list of one entry when `entry` is neither that entry nor the head.
   */
  method ListCutPosition(list: Node, head: Node, entry: Node, ghost a: seq<Node>, ghost b: seq<Node>)
    requires IsList(head, a + b) && list !in [head] + (a + b)
    requires CutsAt(head, entry, a, b) && (|b| == 1 && a == [] ==> entry != b[0])
    modifies list, [head] + (a + b)
    ensures IsList(head, b)
    ensures a != [] ==> IsList(list, a)
    ensures b != [] && a == [] && entry == head ==> IsList(list, [])
    ensures Untouched(head, entry, a, b) ==> list.next == old(list.next) && list.prev == old(list.prev)
  {
    ghost var s := a + b;
    FirstOf(head, s);
    assert a == [] ==> s == b;
    assert a != [] ==> s[|a| - 1] == a[|a| - 1];
    if head.next == head {
      return;
    }
    SingularHas(head, s);
    if head.next == head.prev && head.next != entry && head != entry {
      return;
    }
    if entry == head {
      InitApart(list, [head] + s);
    } else {
      EntryNeighbour(head, a, b);
      assert head in [head] + s;
      ListCutAt(list, head, entry, a, b);
    }
  }

  lemma SingularHas(head: Node, s: seq<Node>)
    requires IsList(head, s) && s != []
    ensures head.next == head.prev <==> |s| == 1
  {
    FirstOf(head, s);
    TailDistinct(head, s);
  }

  /** Everything cutting behind `a` touches belongs to the list. */
  lemma EntryNeighbour(head: Node, a: seq<Node>, b: seq<Node>)
    requires IsList(head, a + b) && a != []
    ensures a[|a| - 1].next in [head] + (a + b) && a[|a| - 1] in [head] + (a + b)
  {
    var r := [head] + (a + b);
    assert r[|a|] == a[|a| - 1] && r[|a|].next == r[After(|a|, |r|)];
  }

  /**
   Cutting anywhere and splicing the part back restores every link.  Where the cut leaves `list`
   as it is, `list` has to be empty.
   */
  method CutThenSplice(list: Node, head: Node, entry: Node, ghost a: seq<Node>, ghost b: seq<Node>)
    requires IsList(head, a + b) && list !in [head] + (a + b)
    requires CutsAt(head, entry, a, b) && (|b| == 1 && a == [] ==> entry != b[0])
    requires Untouched(head, entry, a, b) ==> IsList(list, [])
    modifies list, [head] + (a + b)
    ensures IsList(head, a + b) && IsList(list, [])
    ensures forall n :: n in [head] + (a + b) ==> n.next == old(n.next) && n.prev == old(n.prev)
  {
    ghost var r := [head] + (a + b);
    PartsApart(list, head, a, b);
    assert head in r;
    ListCutPosition(list, head, entry, a, b);
    assert IsList(list, a) by {
      if a == [] {
        assert [list] + a == [list] == [list] + [];
      }
    }
    FirstOf(list, a);
    FirstOf(head, b);
    assert list.next in r || list.next == list;
    assert list.prev in r || list.prev == list;
    assert head.next in r;
    ListSpliceInit(list, head, a, b);
  }

  lemma PartsApart(list: Node, head: Node, a: seq<Node>, b: seq<Node>)
    requires Distinct([head] + (a + b)) && list !in [head] + (a + b)
    ensures Apart([list] + a, [head] + b)
  {
    var r := [head] + (a + b);
    forall n | n in [list] + a
      ensures n !in [head] + b
    {
      if n in a {
        var i :| 0 <= i < |a| && a[i] == n;
        assert r[i + 1] == n && r[0] == head;
        forall j | 0 <= j < |b|
          ensures b[j] != n
        {
          assert r[1 + |a| + j] == b[j];
        }
      } else {
        forall j | 0 <= j < |b|
          ensures b[j] != n
        {
          assert r[1 + |a| + j] == b[j];
        }
      }
    }
  }

  /** The rest of a ring closes when a range is taken out. */
  method ListDelRangeBetween(begin: Node, end: Node, ghost x: seq<Node>, ghost m: seq<Node>)
    requires x != [] && m != [] && begin == m[0] && end == m[|m| - 1]
    requires Stretch(end, x, begin) && Stretch(x[|x| - 1], m, x[0]) && Distinct(x)
    requires forall i, j :: 0 <= i < |x| && 0 <= j < |m| ==> x[i] != m[j]
    modifies begin.prev, end.next
    ensures Stretch(x[|x| - 1], x, x[0])
  {
    begin.prev.next := end.next;
    end.next.prev := begin.prev;
  }

  lemma RangeStretches(head: Node, a: seq<Node>, m: seq<Node>, b: seq<Node>, x: seq<Node>)
    requires IsList(head, a + m + b) && m != [] && x == b + ([head] + a)
    ensures Stretch(m[|m| - 1], x, m[0]) && Stretch(x[|x| - 1], m, x[0]) && Distinct(x + m)
  {
    assert [head] + (a + m + b) == ([head] + a + m) + b;
    SwapParts([head] + a + m, b);
    assert b + ([head] + a + m) == x + m;
    RingToStretches(x, m);
  }

  lemma RestIsList(head: Node, a: seq<Node>, b: seq<Node>)
    requires Ring(b + ([head] + a))
    ensures IsList(head, a + b)
  {
    SwapParts(b, [head] + a);
    assert [head] + a + b == [head] + (a + b);
  }

  /** list_del_range: the entries from `begin` to `end`, both included, leave the list. */
  method ListDelRange(begin: Node, end: Node, head: Node, ghost a: seq<Node>, ghost m: seq<Node>, ghost b: seq<Node>)
    requires IsList(head, a + m + b) && m != [] && begin == m[0] && end == m[|m| - 1]
    modifies begin.prev, end.next
    ensures IsList(head, a + b)
  {
    ghost var x := b + ([head] + a);
    RangeStretches(head, a, m, b, x);
    RangeApart(x, m);
    ListDelRangeBetween(begin, end, x, m);
    StretchToRing(x);
    RestIsList(head, a, b);
  }

  lemma RangeApart(x: seq<Node>, m: seq<Node>)
    requires Distinct(x + m)
    ensures Distinct(x) && forall i, j :: 0 <= i < |x| && 0 <= j < |m| ==> x[i] != m[j]
  {
    var r := x + m;
    forall i, j | 0 <= i < |x| && 0 <= j < |m|
      ensures x[i] != m[j]
    {
      assert r[i] != r[|x| + j];
    }
    forall i, j | 0 <= i < j < |x|
      ensures x[i] != x[j]
    {
      assert r[i] != r[j];
    }
  }

  // ----- questions -----

  method ListEmpty(head: Node, ghost s: seq<Node>) returns (e: bool)
    requires IsList(head, s)
    ensures e <==> s == []
  {
    FirstOf(head, s);
    e := head.next == head;
  }

  method ListIsSingular(head: Node, ghost s: seq<Node>) returns (e: bool)
    requires IsList(head, s)
    ensures e <==> |s| == 1
  {
    FirstOf(head, s);
    if |s| > 1 {
      assert ([head] + s)[1] == s[0] && ([head] + s)[|s|] == s[|s| - 1];
    }
    e := head.next != head && head.next == head.prev;
  }

  method ListIsLast(list: Node, head: Node, ghost s: seq<Node>, ghost k: nat) returns (e: bool)
    requires IsList(head, s) && k < |s| && list == s[k]
    ensures e <==> k == |s| - 1
  {
    ghost var r := [head] + s;
    assert r[k + 1] == list && r[k + 1].next == r[After(k + 1, |r|)];
    assert k + 1 < |s| ==> r[k + 2] != r[0];
    e := list.next == head;
  }

  /** list_for_each: the cursor meets every entry once, in order. */
  method ListForEach(head: Node, ghost s: seq<Node>) returns (visited: seq<Node>)
    requires IsList(head, s)
    ensures visited == s
  {
    visited := [];
    ghost var r := [head] + s;
    FirstOf(head, s);
    var pos := head.next;
    assert r[0].next == r[After(0, |r|)];
    while pos != head
      invariant |visited| <= |s| && visited == s[..|visited|]
      invariant pos == if |visited| == |s| then head else s[|visited|]
      decreases |s| - |visited|
    {
      assert r[|visited| + 1] == pos && r[|visited| + 1].next == r[After(|visited| + 1, |r|)];
      visited := visited + [pos];
      pos := pos.next;
    }
  }
}
