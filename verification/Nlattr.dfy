/** Netlink attributes: an index of the last attribute of each type in a stream of padded TLVs. */
module Nlattr {
  import opened Wrappers
  import opened Bytes

  const NLA_HDRLEN := 4  // sizeof(struct nlattr), itself aligned
  const TYPES := 0x4000  // NLA_TYPE_MASK keeps 14 bits

  const NLA_UNSPEC := 0
  const NLA_STRING := 5
  const NLA_TYPE_MAX := 8

  /** nla_attr_minlen; types 0 and 6 to 8 have no minimum. */
  function MinLenOf(kind: nat): nat
    requires kind <= NLA_TYPE_MAX
  {
    match kind
    case 1 => 1
    case 2 => 2
    case 3 => 4
    case 4 => 8
    case 5 => 1
    case _ => 0
  }

  datatype Policy = Policy(kind: nat, minlen: nat, maxlen: nat)

  /** NLA_ALIGN: the next multiple of four. */
  function Align(n: nat): (r: nat)
    ensures n <= r < n + 4
  {
    if n == 0 then 0 else if n <= 4 then 4 else 4 + Align(n - 4)
  }

  lemma {:induction false} AlignIsMultiple(n: nat)
    ensures Align(n) % 4 == 0 && Align(n) == (n + 3) / 4 * 4
  {
    if n > 4 {
      AlignIsMultiple(n - 4);
    }
  }

  function LenAt(s: seq<byte>, pos: nat): nat
    requires pos + 2 <= |s|
  {
    Le16(s[pos], s[pos + 1])
  }

  /** Where the attribute behind the one at `pos` would start. */
  function Next(s: seq<byte>, pos: nat): (r: nat)
    requires pos + 2 <= |s|
    ensures pos + LenAt(s, pos) <= r < pos + LenAt(s, pos) + 4
  {
    pos + Align(LenAt(s, pos))
  }

  function TypeAt(s: seq<byte>, pos: nat): (t: nat)
    requires pos + 4 <= |s|
    ensures t < TYPES
  {
    Le16(s[pos + 2], s[pos + 3]) % TYPES
  }

  // ----- what a stream holds -----

  /** An attribute found at an offset of the stream. */
  datatype Found = Found(at: nat, kind: nat, payload: seq<byte>)

  /** A whole attribute stands at `pos`. */
  predicate Starts(s: seq<byte>, pos: nat) {
    pos + NLA_HDRLEN <= |s| && NLA_HDRLEN <= LenAt(s, pos) && pos + LenAt(s, pos) <= |s|
  }

  function AttrAt(s: seq<byte>, pos: nat): Found
    requires Starts(s, pos)
  {
    Found(pos, TypeAt(s, pos), s[pos + NLA_HDRLEN..pos + LenAt(s, pos)])
  }

  /** The attributes of the stream from `pos` on. */
  function Walk(s: seq<byte>, pos: nat): seq<Found>
    decreases |s| - pos
  {
    if Starts(s, pos) then [AttrAt(s, pos)] + Walk(s, Next(s, pos)) else []
  }

  /** Where the iteration from `pos` stops: behind the last attribute and its padding. */
  function StopsAt(s: seq<byte>, pos: nat): (r: nat)
    decreases |s| - pos
  {
    if Starts(s, pos) then StopsAt(s, Next(s, pos)) else pos
  }

  /** The last attribute is not padded to the end of its word: the iteration steps over the stream's end. */
  predicate Oversteps(s: seq<byte>) {
    StopsAt(s, 0) > |s|
  }

  /** The offset of the last attribute of a type. */
  function LastOf(fs: seq<Found>, kind: nat): Option<nat> {
    if |fs| == 0 then None
    else if fs[|fs| - 1].kind == kind then Some(fs[|fs| - 1].at)
    else LastOf(fs[..|fs| - 1], kind)
  }

  // ----- policies -----

  function MinLen(p: Policy): nat {
    if p.minlen != 0 then p.minlen
    else if p.kind != NLA_UNSPEC && p.kind <= NLA_TYPE_MAX then MinLenOf(p.kind)
    else 0
  }

  /** A payload meets a policy; policies of unknown kind are met by all. */
  predicate Meets(p: Policy, payload: seq<byte>) {
    p.kind > NLA_TYPE_MAX ||
    (MinLen(p) <= |payload| &&
     (p.maxlen != 0 ==> |payload| <= p.maxlen) &&
     (p.kind == NLA_STRING ==> |payload| > 0 && payload[|payload| - 1] == 0))
  }

  /** An attribute the parser stores or ignores, but does not refuse. */
  predicate Fine(f: Found, maxtype: int, policy: Option<seq<Policy>>)
    requires policy.Some? ==> |policy.value| == maxtype + 1
  {
    f.kind <= maxtype && policy.Some? ==> Meets(policy.value[f.kind], f.payload)
  }

  /** The attributes before the first that is refused. */
  function Taken(fs: seq<Found>, maxtype: int, policy: Option<seq<Policy>>): seq<Found>
    requires policy.Some? ==> |policy.value| == maxtype + 1
  {
    if |fs| == 0 || !Fine(fs[0], maxtype, policy) then []
    else [fs[0]] + Taken(fs[1..], maxtype, policy)
  }

  // ----- the iterator -----

  function Stream(mem: seq<byte>, len: int): seq<byte>
    requires len <= |mem|
  {
    if len < 0 then [] else mem[..len]
  }

  /**
   The parse looks behind the stream: no attribute is refused, and the iteration steps over the
   end, or the stream has a negative length.
   */
  predicate LooksBehind(mem: seq<byte>, len: int, maxtype: int, policy: Option<seq<Policy>>)
    requires len <= |mem| && (policy.Some? ==> |policy.value| == maxtype + 1)
  {
    var fs := Walk(Stream(mem, len), 0);
    StopsAt(Stream(mem, len), 0) > len && Taken(fs, maxtype, policy) == fs
  }

  /** The memory behind the stream reaches as far as the parse looks. */
  predicate Reachable(mem: seq<byte>, len: int, maxtype: int, policy: Option<seq<Policy>>)
    requires policy.Some? ==> |policy.value| == maxtype + 1
  {
    len <= |mem| && (LooksBehind(mem, len, maxtype, policy) ==> StopsAt(Stream(mem, len), 0) + 2 <= |mem|)
  }

  /**
   nla_ok. The first comparison is unsigned, so that with a negative `remaining` the length
   field is read, too, before the last comparison, which is signed, fails; `behind` records
   whether a byte behind the stream was read.
   */
  method NlaOk(mem: seq<byte>, pos: nat, remaining: int) returns (ok: bool, ghost behind: bool)
    requires remaining < 0 || remaining >= NLA_HDRLEN ==> pos + 2 <= |mem|
    requires pos + remaining <= |mem|
    ensures ok <==> Starts(Stream(mem, pos + remaining), pos)
    ensures behind <==> remaining < 0
  {
    behind := false;
    var unsigned := if remaining < 0 then remaining + TWO_64 else remaining;
    if remaining < 0 || unsigned >= NLA_HDRLEN {
      var len := LenAt(mem, pos);
      behind := pos + 2 > pos + remaining;
      ok := len >= NLA_HDRLEN && len <= remaining;
    } else {
      ok := false;
    }
  }

  /** nla_next. */
  method NlaNext(mem: seq<byte>, pos: nat, remaining: int) returns (next: nat, left: int)
    requires pos + 2 <= |mem|
    ensures next == Next(mem, pos) && next + left == pos + remaining
  {
    var total := Align(LenAt(mem, pos));
    return pos + total, remaining - total;
  }

  /** validate_nla, on the bytes of an attribute that passed nla_ok: it reads no others. */
  method ValidateNla(attr: seq<byte>, maxtype: int, policy: seq<Policy>) returns (err: int)
    requires Starts(attr, 0) && |attr| == LenAt(attr, 0) && |policy| == maxtype + 1
    ensures err == 0 || err == -1
    ensures err == 0 <==> Fine(AttrAt(attr, 0), maxtype, Some(policy))
  {
    var minlen := 0;
    var kind := TypeAt(attr, 0);
    if kind > maxtype {
      return 0;
    }
    var pt := policy[kind];
    if pt.kind > NLA_TYPE_MAX {
      return 0;
    }
    if pt.minlen != 0 {
      minlen := pt.minlen;
    } else if pt.kind != NLA_UNSPEC {
      minlen := MinLenOf(pt.kind);
    }
    var len := LenAt(attr, 0) - NLA_HDRLEN;
    if len < minlen {
      return -1;
    }
    if pt.maxlen != 0 && len > pt.maxlen {
      return -1;
    }
    if pt.kind == NLA_STRING {
      if attr[NLA_HDRLEN + len - 1] != 0 {
        return -1;
      }
    }
    return 0;
  }

  /** The attribute's own bytes tell all about it, wherever it stands. */
  lemma AttrOnly(mem: seq<byte>, len: nat, pos: nat)
    requires len <= |mem| && Starts(mem[..len], pos)
    ensures
      var attr := mem[pos..pos + LenAt(mem, pos)];
      Starts(attr, 0) && LenAt(attr, 0) == |attr| && AttrAt(attr, 0).(at := pos) == AttrAt(mem[..len], pos)
    ensures Next(mem, pos) == Next(mem[..len], pos) && TypeAt(mem, pos) == TypeAt(mem[..len], pos)
  {
    var attr := mem[pos..pos + LenAt(mem, pos)];
    assert mem[..len][pos..pos + LenAt(mem, pos)] == attr;
    assert attr[NLA_HDRLEN..] == mem[..len][pos + NLA_HDRLEN..pos + LenAt(mem, pos)];
  }

  /** One turn of the loop: refuse the attribute at `nla`, or store it. */
  method Admit(tb: array<Option<nat>>, maxtype: int, mem: seq<byte>, len: nat, nla: nat, policy: Option<seq<Policy>>,
               ghost done: seq<Found>) returns (err: int)
    requires tb.Length == maxtype + 1 && (policy.Some? ==> |policy.value| == maxtype + 1)
    requires len <= |mem| && Starts(mem[..len], nla)
    requires forall t :: 0 <= t <= maxtype ==> tb[t] == LastOf(done, t)
    modifies tb
    ensures
      var f := AttrAt(mem[..len], nla);
      var fine := Fine(f, maxtype, policy);
      err == (if fine then 0 else -1) &&
      forall t :: 0 <= t <= maxtype ==> tb[t] == LastOf(if fine then done + [f] else done, t)
  {
    ghost var f := AttrAt(mem[..len], nla);
    AttrOnly(mem, len, nla);
    assert (done + [f])[..|done|] == done;
    var kind := TypeAt(mem, nla);
    if kind > maxtype {
      return 0;
    }
    if policy.Some? {
      err := ValidateNla(mem[nla..nla + LenAt(mem, nla)], maxtype, policy.value);
      if err < 0 {
        return;
      }
    }
    tb[kind] := Some(nla);
    return 0;
  }

  /** Between two turns: what was taken is in `tb`, and `ok` is the answer of nla_ok. */
  ghost predicate Midway(tb: array<Option<nat>>, maxtype: int, mem: seq<byte>, len: int, policy: Option<seq<Policy>>,
                         done: seq<Found>, nla: nat, rem: int, ok: bool)
    reads tb
    requires tb.Length == maxtype + 1 && (policy.Some? ==> |policy.value| == maxtype + 1)
  {
    nla + rem == len && Reachable(mem, len, maxtype, policy) && Ahead(Stream(mem, len), nla, done, maxtype, policy) &&
    (ok <==> Starts(Stream(mem, len), nla)) &&
    forall t :: 0 <= t <= maxtype ==> tb[t] == LastOf(done, t)
  }

  /** Where nla_ok looks next: inside the stream, or where the parse looks behind it. */
  lemma LooksAt(mem: seq<byte>, len: int, pos: nat, done: seq<Found>, maxtype: int, policy: Option<seq<Policy>>)
    requires policy.Some? ==> |policy.value| == maxtype + 1
    requires Reachable(mem, len, maxtype, policy) && Ahead(Stream(mem, len), pos, done, maxtype, policy)
    ensures pos > len ==> LooksBehind(mem, len, maxtype, policy) && pos + 2 <= |mem|
    ensures pos <= len && !Starts(Stream(mem, len), pos) ==> !LooksBehind(mem, len, maxtype, policy)
  {
    if !Starts(Stream(mem, len), pos) {
      AheadOver(Stream(mem, len), pos, done, maxtype, policy);
    }
  }

  /** One turn of the loop and the step to the next attribute. */
  method Turn(tb: array<Option<nat>>, maxtype: int, mem: seq<byte>, len: int, policy: Option<seq<Policy>>,
              ghost done: seq<Found>, nla: nat, rem: int)
    returns (err: int, next: nat, left: int, ok: bool, ghost done': seq<Found>, ghost behind: bool)
    requires tb.Length == maxtype + 1 && (policy.Some? ==> |policy.value| == maxtype + 1)
    requires Midway(tb, maxtype, mem, len, policy, done, nla, rem, true)
    modifies tb
    ensures err == 0 || err == -1
    ensures err == 0 ==> Midway(tb, maxtype, mem, len, policy, done', next, left, ok) && left < rem
    ensures behind <==> err == 0 && left < 0
    ensures
      err == -1 ==> Taken(Walk(Stream(mem, len), 0), maxtype, policy) == done != Walk(Stream(mem, len), 0) &&
                    forall t :: 0 <= t <= maxtype ==> tb[t] == LastOf(done, t)
  {
    next, left, ok, done', behind := nla, rem, true, done, false;
    AttrOnly(mem, len, nla);
    err := Admit(tb, maxtype, mem, len, nla, policy, done);
    if err < 0 {
      AheadRefused(Stream(mem, len), nla, done, maxtype, policy);
      return;
    }
    AheadStep(Stream(mem, len), nla, done, maxtype, policy);
    done' := done + [AttrAt(mem[..len], nla)];
    next, left := NlaNext(mem, nla, rem);
    LooksAt(mem, len, next, done', maxtype, policy);
    ok, behind := NlaOk(mem, next, left);
  }

  /**
   nla_parse: `tb` becomes the index of the attributes before the first that is refused; `behind`
   records whether a byte behind the stream was read.
   */
  method NlaParse(tb: array<Option<nat>>, maxtype: int, mem: seq<byte>, len: int, policy: Option<seq<Policy>>)
    returns (err: int, ghost behind: bool)
    requires tb.Length == maxtype + 1 && (policy.Some? ==> |policy.value| == maxtype + 1)
    requires Reachable(mem, len, maxtype, policy)
    modifies tb
    ensures
      var fs := Walk(Stream(mem, len), 0);
      var taken := Taken(fs, maxtype, policy);
      (err == if taken == fs then 0 else -1) &&
      forall t :: 0 <= t <= maxtype ==> tb[t] == LastOf(taken, t)
    ensures behind <==> LooksBehind(mem, len, maxtype, policy)
  {
    forall t | 0 <= t < tb.Length {
      tb[t] := None;
    }
    ghost var done: seq<Found> := [];
    var nla, rem := 0, len;
    LooksAt(mem, len, nla, done, maxtype, policy);
    var ok;
    ok, behind := NlaOk(mem, nla, rem);
    while ok
      invariant Midway(tb, maxtype, mem, len, policy, done, nla, rem, ok)
      invariant behind <==> rem < 0
      decreases rem
    {
      err, nla, rem, ok, done, behind := Turn(tb, maxtype, mem, len, policy, done, nla, rem);
      if err < 0 {
        return;
      }
    }
    LooksAt(mem, len, nla, done, maxtype, policy);
    AheadOver(Stream(mem, len), nla, done, maxtype, policy);
    err := 0;
  }

  // ----- the walk in progress -----

  /** `done` has been taken, and the rest of the walk starts at `pos`. */
  ghost predicate Ahead(s: seq<byte>, pos: nat, done: seq<Found>, maxtype: int, policy: Option<seq<Policy>>)
    requires policy.Some? ==> |policy.value| == maxtype + 1
  {
    StopsAt(s, 0) == StopsAt(s, pos) &&
    Walk(s, 0) == done + Walk(s, pos) &&
    Taken(Walk(s, 0), maxtype, policy) == done + Taken(Walk(s, pos), maxtype, policy)
  }

  lemma TakenStep(f: Found, fs: seq<Found>, maxtype: int, policy: Option<seq<Policy>>)
    requires policy.Some? ==> |policy.value| == maxtype + 1
    ensures
      Taken([f] + fs, maxtype, policy) == if Fine(f, maxtype, policy) then [f] + Taken(fs, maxtype, policy) else []
  {
    assert ([f] + fs)[1..] == fs;
  }

  /** The attribute at `pos` is taken. */
  lemma AheadStep(s: seq<byte>, pos: nat, done: seq<Found>, maxtype: int, policy: Option<seq<Policy>>)
    requires policy.Some? ==> |policy.value| == maxtype + 1
    requires Ahead(s, pos, done, maxtype, policy) && Starts(s, pos) && Fine(AttrAt(s, pos), maxtype, policy)
    ensures Ahead(s, Next(s, pos), done + [AttrAt(s, pos)], maxtype, policy)
  {
    var f, next := AttrAt(s, pos), Next(s, pos);
    var tail := Walk(s, next);
    TakenStep(f, tail, maxtype, policy);
    Append(done, f, tail, Walk(s, pos));
    Append(done, f, Taken(tail, maxtype, policy), Taken(Walk(s, pos), maxtype, policy));
  }

  lemma Append<T>(done: seq<T>, f: T, tail: seq<T>, all: seq<T>)
    requires all == [f] + tail
    ensures done + all == done + [f] + tail
  {
  }

  /** The attribute at `pos` is refused. */
  lemma AheadRefused(s: seq<byte>, pos: nat, done: seq<Found>, maxtype: int, policy: Option<seq<Policy>>)
    requires policy.Some? ==> |policy.value| == maxtype + 1
    requires Ahead(s, pos, done, maxtype, policy) && Starts(s, pos) && !Fine(AttrAt(s, pos), maxtype, policy)
    ensures Taken(Walk(s, 0), maxtype, policy) == done != Walk(s, 0)
  {
    TakenStep(AttrAt(s, pos), Walk(s, Next(s, pos)), maxtype, policy);
  }

  lemma AheadOver(s: seq<byte>, pos: nat, done: seq<Found>, maxtype: int, policy: Option<seq<Policy>>)
    requires policy.Some? ==> |policy.value| == maxtype + 1
    requires Ahead(s, pos, done, maxtype, policy) && !Starts(s, pos)
    ensures Taken(Walk(s, 0), maxtype, policy) == Walk(s, 0) == done
  {
  }
}
