/**
 The kernel's hash-chain lists: a one-pointer head, and nodes that remember the link
 pointing at them, so that a node can be unlinked without knowing its list.
 */
module Hlist {

  /** A pointer to a link: the `first` of a head or the `next` of a node; Nowhere is NULL or poison. */
  datatype Link =
    | Nowhere
    | HeadLink(head: HHead)
    | NodeLink(node: HNode)

  /** struct hlist_head. */
  class HHead {
    var first: HNode?

    constructor ()
      ensures first == null
    {
      first := null;
    }
  }

  /** struct hlist_node. */
  class HNode {
    var next: HNode?
    var pprev: Link

    constructor ()
      ensures next == null && pprev == Nowhere
    {
      next, pprev := null, Nowhere;
    }
  }

  predicate Distinct(s: seq<HNode>) {
    forall i, j :: 0 <= i < j < |s| ==> s[i] != s[j]
  }

  /** The link that leads to position `i`. */
  function LinkTo(h: HHead, s: seq<HNode>, i: nat): Link
    requires i <= |s|
  {
    if i == 0 then HeadLink(h) else NodeLink(s[i - 1])
  }

  function NodeAt(s: seq<HNode>, i: nat): HNode? {
    if i < |s| then s[i] else null
  }

  /** The chain of `h` is `s`, and every `pprev` designates the one link that leads to its node. */
  ghost predicate IsHlist(h: HHead, s: seq<HNode>)
    reads h, s
  {
    Distinct(s) && Chained(h, s)
  }

  /** The links alone. */
  ghost predicate Chained(h: HHead, s: seq<HNode>)
    reads h, s
  {
    h.first == NodeAt(s, 0) &&
    (forall i :: 0 <= i < |s| ==> s[i].next == NodeAt(s, i + 1)) &&
    (forall i :: 0 <= i < |s| ==> s[i].pprev == LinkTo(h, s, i))
  }

  /** *link = value; a pointer to nowhere is never written through. */
  method Store(link: Link, value: HNode?)
    requires link != Nowhere
    modifies if link.HeadLink? then {link.head} else if link.NodeLink? then {link.node} else {}
    ensures link.HeadLink? ==> link.head.first == value
    ensures link.NodeLink? ==> link.node.next == value && link.node.pprev == old(link.node.pprev)
  {
    match link
    case HeadLink(h) => h.first := value;
    case NodeLink(n) => n.next := value;
    case Nowhere =>
  }

  method HlistEmpty(h: HHead, ghost s: seq<HNode>) returns (e: bool)
    requires IsHlist(h, s)
    ensures e <==> s == []
  {
    e := h.first == null;
  }

  // ----- the two sides of a position -----

  /** `b` follows one another, from the link `link` to the pointer `p`. */
  ghost predicate Segment(link: Link, b: seq<HNode>, p: HNode?)
    requires b != []
    reads b
  {
    b[0].pprev == link && b[|b| - 1].next == p &&
    (forall i :: 0 <= i < |b| - 1 ==> b[i].next == b[i + 1]) &&
    (forall i :: 0 < i < |b| ==> b[i].pprev == NodeLink(b[i - 1]))
  }

  /** The link behind the nodes `a` of the chain of `h`. */
  function Behind(h: HHead, a: seq<HNode>): Link {
    LinkTo(h, a, |a|)
  }

  /** The chain of `h` begins with `a`, and the link behind `a` holds `p`. */
  ghost predicate Front(h: HHead, a: seq<HNode>, p: HNode?)
    reads h, a
  {
    if a == [] then h.first == p else h.first == a[0] && Segment(HeadLink(h), a, p)
  }

  /** The link `link` holds `p`, and `b` is all that follows it. */
  ghost predicate Rest(link: Link, p: HNode?, b: seq<HNode>)
    reads b
  {
    if b == [] then p == null else p == b[0] && Segment(link, b, null)
  }

  /** A chain is a front and a rest that meet at a link. */
  lemma Split(h: HHead, a: seq<HNode>, b: seq<HNode>)
    ensures Chained(h, a + b) <==> Front(h, a, NodeAt(b, 0)) && Rest(Behind(h, a), NodeAt(b, 0), b)
  {
    if Chained(h, a + b) {
      ChainToFront(h, a, b);
      ChainToRest(h, a, b);
    }
    if Front(h, a, NodeAt(b, 0)) && Rest(Behind(h, a), NodeAt(b, 0), b) {
      PartsToChain(h, a, b);
    }
  }

  lemma Places(h: HHead, a: seq<HNode>, b: seq<HNode>, i: nat)
    requires i <= |a| + |b|
    ensures NodeAt(a + b, i) == if i < |a| then a[i] else NodeAt(b, i - |a|)
    ensures
      LinkTo(h, a + b, i) ==
      if i == 0 then HeadLink(h) else if i <= |a| then NodeLink(a[i - 1]) else NodeLink(b[i - |a| - 1])
  {
  }

  /** The nodes of `b` stand in `s` from position `m` on. */
  predicate Part(s: seq<HNode>, m: nat, b: seq<HNode>) {
    m + |b| <= |s| && forall i :: 0 <= i < |b| ==> b[i] == s[m + i]
  }

  /** One node of a stretch of a chain. */
  lemma ChainNode(h: HHead, s: seq<HNode>, m: nat, b: seq<HNode>, i: nat)
    requires Chained(h, s) && Part(s, m, b) && i < |b|
    ensures b[i].next == NodeAt(s, m + i + 1) && b[i].pprev == LinkTo(h, s, m + i)
    ensures i + 1 < |b| ==> b[i].next == b[i + 1]
    ensures i > 0 ==> b[i].pprev == NodeLink(b[i - 1])
  {
    assert b[i] == s[m + i];
    assert i + 1 < |b| ==> b[i + 1] == s[m + (i + 1)];
    assert i > 0 ==> b[i - 1] == s[m + (i - 1)];
  }

  lemma ChainInside(h: HHead, s: seq<HNode>, m: nat, b: seq<HNode>)
    requires Chained(h, s) && Part(s, m, b)
    ensures forall i :: 0 <= i < |b| - 1 ==> b[i].next == b[i + 1]
    ensures forall i :: 0 < i < |b| ==> b[i].pprev == NodeLink(b[i - 1])
  {
    forall i | 0 <= i < |b|
      ensures i + 1 < |b| ==> b[i].next == b[i + 1]
      ensures i > 0 ==> b[i].pprev == NodeLink(b[i - 1])
    {
      ChainNode(h, s, m, b, i);
    }
  }

  /** A stretch of a chain, from position `m` on. */
  lemma ChainSegment(h: HHead, s: seq<HNode>, m: nat, b: seq<HNode>)
    requires Chained(h, s) && b != [] && Part(s, m, b)
    ensures Segment(LinkTo(h, s, m), b, NodeAt(s, m + |b|))
  {
    ChainNode(h, s, m, b, 0);
    ChainNode(h, s, m, b, |b| - 1);
    ChainInside(h, s, m, b);
  }

  lemma ChainToFront(h: HHead, a: seq<HNode>, b: seq<HNode>)
    requires Chained(h, a + b)
    ensures Front(h, a, NodeAt(b, 0))
  {
    Places(h, a, b, 0);
    if a != [] {
      ChainSegment(h, a + b, 0, a);
      Places(h, a, b, |a|);
    }
  }

  lemma ChainToRest(h: HHead, a: seq<HNode>, b: seq<HNode>)
    requires Chained(h, a + b)
    ensures Rest(Behind(h, a), NodeAt(b, 0), b)
  {
    if b != [] {
      ChainSegment(h, a + b, |a|, b);
      Places(h, a, b, |a|);
    }
  }

  lemma PartsToChain(h: HHead, a: seq<HNode>, b: seq<HNode>)
    requires Front(h, a, NodeAt(b, 0)) && Rest(Behind(h, a), NodeAt(b, 0), b)
    ensures Chained(h, a + b)
  {
    var s, m := a + b, |a|;
    forall i | 0 <= i < |s|
      ensures s[i].next == NodeAt(s, i + 1)
    {
      assert if i < m then s[i] == a[i] else s[i] == b[i - m];
    }
    forall i | 0 <= i < |s|
      ensures s[i].pprev == LinkTo(h, s, i)
    {
      assert if i < m then s[i] == a[i] else s[i] == b[i - m];
    }
  }

  /** No node stands on both sides. */
  predicate Disjoint(a: seq<HNode>, b: seq<HNode>) {
    forall i, j :: 0 <= i < |a| && 0 <= j < |b| ==> a[i] != b[j]
  }

  lemma SidesDistinct(a: seq<HNode>, b: seq<HNode>)
    ensures Distinct(a + b) <==> Distinct(a) && Distinct(b) && Disjoint(a, b)
  {
    var t, m := a + b, |a|;
    if Distinct(t) {
      forall i, j | 0 <= i < |a| && 0 <= j < |b|
        ensures a[i] != b[j]
      {
        assert t[i] != t[m + j];
      }
      forall i, j | 0 <= i < j < |b|
        ensures b[i] != b[j]
      {
        assert t[m + i] != t[m + j];
      }
      forall i, j | 0 <= i < j < |a|
        ensures a[i] != a[j]
      {
        assert t[i] != t[j];
      }
    }
  }

  lemma DistinctSides(a: seq<HNode>, n: HNode, b: seq<HNode>)
    ensures Distinct(a + [n] + b) <==> Distinct(a + b) && n !in a && n !in b
    ensures Distinct(a + b) ==> Distinct(a) && Distinct(b) && Disjoint(a, b)
  {
    SidesDistinct(a + [n], b);
    SidesDistinct(a, [n]);
    SidesDistinct(a, b);
    DisjointMiddle(a, n, b);
    DisjointLast(a, n);
  }

  lemma DisjointLast(a: seq<HNode>, n: HNode)
    ensures Disjoint(a, [n]) <==> n !in a
  {
    if Disjoint(a, [n]) {
      forall i | 0 <= i < |a|
        ensures a[i] != n
      {
        assert a[i] != [n][0];
      }
    }
  }

  lemma DisjointMiddle(a: seq<HNode>, n: HNode, b: seq<HNode>)
    ensures Disjoint(a + [n], b) <==> Disjoint(a, b) && n !in b
  {
    var c := a + [n];
    if Disjoint(c, b) {
      forall i, j | 0 <= i < |a| && 0 <= j < |b|
        ensures a[i] != b[j]
      {
        assert c[i] != b[j];
      }
      forall j | 0 <= j < |b|
        ensures b[j] != n
      {
        assert c[|a|] != b[j];
      }
    }
  }

  // ----- unlinking -----

  /** What a link is part of. */
  function Holder(link: Link): set<object> {
    match link
    case Nowhere => {}
    case HeadLink(h) => {h}
    case NodeLink(n) => {n}
  }

  /** The writes of __hlist_del: the link that leads to `n` and the back pointer of its successor. */
  method Bypass(n: HNode)
    requires n.pprev != Nowhere
    modifies Holder(n.pprev), n.next
    ensures old(n.pprev).HeadLink? ==> old(n.pprev).head.first == old(n.next)
    ensures old(n.pprev).NodeLink? ==> old(n.pprev).node.next == old(n.next)
    ensures old(n.pprev).NodeLink? && old(n.pprev).node != old(n.next) ==>
      old(n.pprev).node.pprev == old(n.pprev.node.pprev)
    ensures old(n.next) != null ==> old(n.next).pprev == old(n.pprev)
    ensures old(n.next) != null && old(n.pprev) != NodeLink(old(n.next)) ==> old(n.next).next == old(n.next.next)
  {
    var next := n.next;
    var pprev := n.pprev;
    Store(pprev, next);
    if next != null {
      next.pprev := pprev;
    }
  }

  /** __hlist_del: constant time, without looking at the head. */
  method HlistUnlink(n: HNode, ghost h: HHead, ghost a: seq<HNode>, ghost b: seq<HNode>)
    requires Front(h, a, n) && n.pprev == Behind(h, a) && Rest(NodeLink(n), n.next, b)
    requires Disjoint(a, b) && Distinct(a) && Distinct(b) && n !in a && n !in b
    modifies h, a, b
    ensures Front(h, a, n.next) && Rest(Behind(h, a), n.next, b)
    ensures n.next == old(n.next) && n.pprev == old(n.pprev)
  {
    Bypass(n);
  }

  lemma LinksAround(h: HHead, a: seq<HNode>, n: HNode, b: seq<HNode>)
    requires Chained(h, a + [n] + b)
    ensures Front(h, a, n) && n.pprev == Behind(h, a) && Rest(NodeLink(n), n.next, b) && n.next == NodeAt(b, 0)
  {
    assert a + [n] + b == a + ([n] + b);
    Split(h, a, [n] + b);
    Split(h, a + [n], b);
  }

  /** What unlinking needs to know, and what it leaves. */
  lemma AroundNode(h: HHead, a: seq<HNode>, n: HNode, b: seq<HNode>)
    requires IsHlist(h, a + [n] + b)
    ensures Front(h, a, n) && n.pprev == Behind(h, a) && Rest(NodeLink(n), n.next, b) && n.next == NodeAt(b, 0)
    ensures Distinct(a + b) && Disjoint(a, b) && Distinct(a) && Distinct(b) && n !in a && n !in b
  {
    DistinctSides(a, n, b);
    LinksAround(h, a, n, b);
  }

  /** __hlist_del on a list. */
  method HlistUnlinkFrom(n: HNode, ghost h: HHead, ghost a: seq<HNode>, ghost b: seq<HNode>)
    requires IsHlist(h, a + [n] + b)
    modifies h, a, b
    ensures IsHlist(h, a + b) && n !in a && n !in b
  {
    AroundNode(h, a, n, b);
    HlistUnlink(n, h, a, b);
    Split(h, a, b);
  }

  method HlistDel(n: HNode, ghost h: HHead, ghost a: seq<HNode>, ghost b: seq<HNode>)
    requires IsHlist(h, a + [n] + b)
    modifies h, a, b, n
    ensures IsHlist(h, a + b) && n.next == null && n.pprev == Nowhere
  {
    HlistUnlinkFrom(n, h, a, b);
    n.next := null;
    n.pprev := Nowhere;
  }

  /** hlist_del_init: a node that is on no list is left alone. */
  method HlistDelInit(n: HNode, ghost h: HHead, ghost a: seq<HNode>, ghost b: seq<HNode>)
    requires n.pprev != Nowhere ==> IsHlist(h, a + [n] + b)
    modifies h, a, b, n
    ensures old(n.pprev) == Nowhere ==> unchanged(h, a, b, n)
    ensures old(n.pprev) != Nowhere ==> IsHlist(h, a + b) && n.next == null
    ensures n.pprev == Nowhere
  {
    if n.pprev != Nowhere {
      HlistUnlinkFrom(n, h, a, b);
      n.next := null;
      n.pprev := Nowhere;
    }
  }

  lemma Around(h: HHead, a: seq<HNode>, b: seq<HNode>)
    requires IsHlist(h, a + b)
    ensures Front(h, a, NodeAt(b, 0)) && Rest(Behind(h, a), NodeAt(b, 0), b)
    ensures Distinct(a) && Distinct(b) && Disjoint(a, b)
  {
    Split(h, a, b);
    SidesDistinct(a, b);
  }

  /** A node that stands between a front and a rest makes one longer chain. */
  lemma Between(h: HHead, a: seq<HNode>, n: HNode, b: seq<HNode>)
    requires Distinct(a + b) && n !in a && n !in b
    requires Front(h, a, n) && n.pprev == Behind(h, a) && n.next == NodeAt(b, 0) && Rest(NodeLink(n), n.next, b)
    ensures IsHlist(h, a + [n] + b)
  {
    DistinctSides(a, n, b);
    FrontGrows(h, a, n);
    Split(h, a + [n], b);
  }

  lemma FrontGrows(h: HHead, a: seq<HNode>, n: HNode)
    requires Front(h, a, n) && n.pprev == Behind(h, a)
    ensures Front(h, a + [n], n.next)
  {
    var c := a + [n];
    forall i | 0 <= i < |c| - 1
      ensures c[i].next == c[i + 1]
    {
      assert c[i] == a[i];
    }
    forall i | 0 < i < |c|
      ensures c[i].pprev == NodeLink(c[i - 1])
    {
      assert i < |a| ==> c[i] == a[i];
    }
  }

  /** The writes of hlist_add_head. */
  method LinkFirst(n: HNode, h: HHead, ghost s: seq<HNode>)
    requires Rest(HeadLink(h), h.first, s) && Distinct(s) && n !in s
    modifies n, h, s
    ensures h.first == n && n.pprev == HeadLink(h) && n.next == NodeAt(s, 0) && Rest(NodeLink(n), n.next, s)
  {
    var first := h.first;
    n.next := first;
    if first != null {
      first.pprev := NodeLink(n);
    }
    h.first := n;
    n.pprev := HeadLink(h);
  }

  lemma FirstBetween(h: HHead, n: HNode, s: seq<HNode>)
    requires Distinct(s) && n !in s
    requires h.first == n && n.pprev == HeadLink(h) && n.next == NodeAt(s, 0) && Rest(NodeLink(n), n.next, s)
    ensures IsHlist(h, [n] + s)
  {
    OneMoreDistinct(n, s);
    Split(h, [n], s);
  }

  lemma OneMoreDistinct(n: HNode, s: seq<HNode>)
    requires Distinct(s) && n !in s
    ensures Distinct([n] + s)
  {
    var t := [n] + s;
    forall i, j | 0 <= i < j < |t|
      ensures t[i] != t[j]
    {
      assert t[j] == s[j - 1] && (i > 0 ==> t[i] == s[i - 1]);
    }
  }

  lemma FirstRest(h: HHead, s: seq<HNode>)
    requires IsHlist(h, s)
    ensures Rest(HeadLink(h), h.first, s)
  {
    assert [] + s == s;
    Around(h, [], s);
  }

  method HlistAddHead(n: HNode, h: HHead, ghost s: seq<HNode>)
    requires IsHlist(h, s) && n !in s
    modifies n, h, s
    ensures IsHlist(h, [n] + s)
  {
    FirstRest(h, s);
    LinkFirst(n, h, s);
    FirstBetween(h, n, s);
  }

  /** The writes of hlist_add_before. */
  method LinkBefore(n: HNode, next: HNode, ghost h: HHead, ghost a: seq<HNode>, ghost b: seq<HNode>)
    requires Front(h, a, next) && Rest(Behind(h, a), next, b)
    requires Distinct(a) && Distinct(b) && Disjoint(a, b) && n !in a && n !in b
    modifies n, h, a, b
    ensures Front(h, a, n) && n.pprev == Behind(h, a) && n.next == NodeAt(b, 0) && Rest(NodeLink(n), n.next, b)
  {
    n.pprev := next.pprev;
    n.next := next;
    next.pprev := NodeLink(n);
    Store(n.pprev, n);
  }

  /** hlist_add_before: `next` is the first node of `b`. */
  method HlistAddBefore(n: HNode, next: HNode, ghost h: HHead, ghost a: seq<HNode>, ghost b: seq<HNode>)
    requires IsHlist(h, a + b) && b != [] && next == b[0] && n !in a && n !in b
    modifies n, h, a, b
    ensures IsHlist(h, a + [n] + b)
  {
    Around(h, a, b);
    LinkBefore(n, next, h, a, b);
    Between(h, a, n, b);
  }

  /** The writes of hlist_add_behind. */
  method LinkBehind(n: HNode, prev: HNode, ghost h: HHead, ghost a: seq<HNode>, ghost b: seq<HNode>)
    requires Front(h, a, NodeAt(b, 0)) && Rest(Behind(h, a), NodeAt(b, 0), b) && a != [] && prev == a[|a| - 1]
    requires Distinct(a) && Distinct(b) && Disjoint(a, b) && n !in a && n !in b
    modifies n, a, b
    ensures Front(h, a, n) && n.pprev == Behind(h, a) && n.next == NodeAt(b, 0) && Rest(NodeLink(n), n.next, b)
  {
    n.next := prev.next;
    prev.next := n;
    n.pprev := NodeLink(prev);
    if n.next != null {
      n.next.pprev := NodeLink(n);
    }
  }

  /** hlist_add_behind: `prev` is the last node of `a`. */
  method HlistAddBehind(n: HNode, prev: HNode, ghost h: HHead, ghost a: seq<HNode>, ghost b: seq<HNode>)
    requires IsHlist(h, a + b) && a != [] && prev == a[|a| - 1] && n !in a && n !in b
    modifies n, a, b
    ensures IsHlist(h, a + [n] + b)
  {
    Around(h, a, b);
    LinkBehind(n, prev, h, a, b);
    Between(h, a, n, b);
  }

  /** hlist_move_list: the whole chain changes heads. */
  method HlistMoveList(from: HHead, to: HHead, ghost s: seq<HNode>)
    requires IsHlist(from, s) && from != to
    modifies from, to, s
    ensures IsHlist(to, s) && IsHlist(from, [])
    ensures forall i :: 0 <= i < |s| ==> s[i].next == old(s[i].next)
  {
    to.first := from.first;
    if to.first != null {
      to.first.pprev := HeadLink(to);
    }
    from.first := null;
  }

  /** hlist_add_fake: a node that seems to be on a list, being behind its own link. */
  method HlistAddFake(n: HNode)
    modifies n
    ensures n.pprev == NodeLink(n) && n.next == old(n.next)
  {
    n.pprev := NodeLink(n);
  }

  /**
   hlist_del of a fake node works.  Only a node behind it, which a fake node has no business to
   have, is touched: its back pointer is left dangling.
   */
  method HlistDelFake(n: HNode)
    requires n.pprev == NodeLink(n) && n.next != n
    modifies n, n.next
    ensures n.next == null && n.pprev == Nowhere
    ensures old(n.next) != null ==> old(n.next).next == old(n.next.next) && old(n.next).pprev == NodeLink(n)
  {
    Bypass(n);
    n.next := null;
    n.pprev := Nowhere;
  }

  /** A node on no list is made a fake and deleted: nothing but the node is written. */
  method FakeThenDel(n: HNode)
    requires n.next == null
    modifies n
    ensures n.next == null && n.pprev == Nowhere
  {
    HlistAddFake(n);
    HlistDelFake(n);
  }

  lemma TakeOne<T>(s: seq<T>, k: nat)
    requires k < |s|
    ensures s[..k + 1] == s[..k] + [s[k]]
  {
  }

  /** The walk from `first`, over links that lead through `s`. */
  method Visit(first: HNode?, ghost s: seq<HNode>) returns (visited: seq<HNode>)
    requires first == NodeAt(s, 0) && forall i :: 0 <= i < |s| ==> s[i].next == NodeAt(s, i + 1)
    ensures visited == s
  {
    visited := [];
    var pos := first;
    ghost var k := 0;
    while pos != null
      invariant k <= |s| && visited == s[..k] && pos == NodeAt(s, k)
      decreases |s| - k
    {
      TakeOne(s, k);
      visited := visited + [pos];
      pos := pos.next;
      k := k + 1;
    }
  }

  /** hlist_for_each: the cursor meets every node once, in order. */
  method HlistForEach(h: HHead, ghost s: seq<HNode>) returns (visited: seq<HNode>)
    requires IsHlist(h, s)
    ensures visited == s
  {
    visited := Visit(h.first, s);
  }
}
