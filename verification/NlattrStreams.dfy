/** What the attribute index holds, and which streams are read to their end and no further. */
module NlattrStreams {
  import opened Wrappers
  import opened Bytes
  import opened Nlattr

  // ----- the index -----

  /** The attribute `fs[i]` is the last of its kind. */
  predicate IsLast(fs: seq<Found>, i: int, kind: nat) {
    0 <= i < |fs| && fs[i].kind == kind && forall j :: i < j < |fs| ==> fs[j].kind != kind
  }

  lemma {:induction false} NoneIfAbsent(fs: seq<Found>, kind: nat)
    ensures LastOf(fs, kind).None? <==> forall i :: 0 <= i < |fs| ==> fs[i].kind != kind
  {
    if |fs| > 0 {
      NoneIfAbsent(fs[..|fs| - 1], kind);
    }
  }

  /** The place the index gives for a type is that of the last attribute of the type. */
  lemma {:induction false} LastOfIsLast(fs: seq<Found>, kind: nat) returns (i: nat)
    requires LastOf(fs, kind).Some?
    ensures IsLast(fs, i, kind) && LastOf(fs, kind).value == fs[i].at
  {
    if fs[|fs| - 1].kind == kind {
      i := |fs| - 1;
    } else {
      i := LastOfIsLast(fs[..|fs| - 1], kind);
    }
  }

  lemma {:induction false} AllTakenIff(fs: seq<Found>, maxtype: int, policy: Option<seq<Policy>>)
    requires policy.Some? ==> |policy.value| == maxtype + 1
    ensures Taken(fs, maxtype, policy) == fs <==> forall i :: 0 <= i < |fs| ==> Fine(fs[i], maxtype, policy)
  {
    if |fs| > 0 {
      AllTakenIff(fs[1..], maxtype, policy);
      if Fine(fs[0], maxtype, policy) {
        assert fs == [fs[0]] + fs[1..];
        assert forall i :: 1 <= i < |fs| ==> fs[i] == fs[1..][i - 1];
      }
    }
  }

  /** What is taken before a refusal ends right before the first refused attribute. */
  lemma {:induction false} TakenEndsAtFirstRefused(fs: seq<Found>, maxtype: int, policy: Option<seq<Policy>>)
    requires policy.Some? ==> |policy.value| == maxtype + 1
    requires Taken(fs, maxtype, policy) != fs
    ensures
      var n := |Taken(fs, maxtype, policy)|;
      n < |fs| && Taken(fs, maxtype, policy) == fs[..n] && !Fine(fs[n], maxtype, policy) &&
      forall i :: 0 <= i < n ==> Fine(fs[i], maxtype, policy)
  {
    if Fine(fs[0], maxtype, policy) {
      assert fs == [fs[0]] + fs[1..];
      TakenEndsAtFirstRefused(fs[1..], maxtype, policy);
    }
  }

  /** The text of a string attribute that meets its policy ends with NUL, so it can be printed as it stands. */
  lemma StringsEnd(f: Found, maxtype: int, policy: seq<Policy>)
    requires |policy| == maxtype + 1 && f.kind <= maxtype && policy[f.kind].kind == NLA_STRING
    requires Fine(f, maxtype, Some(policy))
    ensures 0 in f.payload
  {
    assert f.payload[|f.payload| - 1] == 0;
  }

  // ----- where attributes lie -----

  /** Every attribute lies inside the stream, header and payload. */
  lemma {:induction false} AttributesLieInside(s: seq<byte>, pos: nat, i: nat)
    requires i < |Walk(s, pos)|
    ensures
      var f := Walk(s, pos)[i];
      pos <= f.at && Starts(s, f.at) && f == AttrAt(s, f.at)
    decreases i
  {
    if i > 0 {
      AttributesLieInside(s, Next(s, pos), i - 1);
    }
  }

  /** Each starts at the next multiple of four behind the one before. */
  lemma {:induction false} AttributesFollow(s: seq<byte>, pos: nat, i: nat)
    requires i + 1 < |Walk(s, pos)|
    ensures Walk(s, pos)[i + 1].at == Walk(s, pos)[i].at + Align(NLA_HDRLEN + |Walk(s, pos)[i].payload|)
    decreases i
  {
    if i > 0 {
      AttributesFollow(s, Next(s, pos), i - 1);
    }
  }

  // ----- streams that are overstepped -----

  lemma PaddedNext(s: seq<byte>, pos: nat)
    requires |s| % 4 == 0 && pos % 4 == 0 && Starts(s, pos)
    ensures Next(s, pos) % 4 == 0 && Next(s, pos) <= |s|
  {
    AlignIsMultiple(LenAt(s, pos));
    SumOfWords(pos, Align(LenAt(s, pos)));
    NoPartOfWord(Next(s, pos), |s|);
  }

  lemma SumOfWords(x: nat, y: nat)
    requires x % 4 == 0 && y % 4 == 0
    ensures (x + y) % 4 == 0
  {
  }

  lemma NoPartOfWord(x: nat, y: nat)
    requires x % 4 == 0 && y % 4 == 0 && x < y + 4
    ensures x <= y
  {
  }

  lemma {:induction false} PaddedStops(s: seq<byte>, pos: nat)
    requires |s| % 4 == 0 && pos % 4 == 0 && pos <= |s|
    ensures StopsAt(s, pos) <= |s|
    decreases |s| - pos
  {
    if Starts(s, pos) {
      PaddedNext(s, pos);
      PaddedStops(s, Next(s, pos));
    }
  }

  /** A stream of `n` bytes whose last attribute is not padded. */
  function Unpadded(n: nat): (s: seq<byte>)
    ensures |s| == n
  {
    seq(n, i requires 0 <= i < n => if i % 4 != 0 then 0 else if n - i >= 9 then 4 else n - i)
  }

  lemma UnpaddedLen(n: nat, pos: nat)
    requires pos % 4 == 0 && pos + 5 <= n
    ensures LenAt(Unpadded(n), pos) == if n - pos >= 9 then 4 else n - pos
  {
    assert Unpadded(n)[pos + 1] == 0;
  }

  lemma LastWord(len: nat)
    requires 5 <= len < 9 && len % 4 != 0
    ensures Align(len) == 8
  {
    assert Align(len) == 4 + Align(len - 4);
  }

  /** One step of the iteration over it. */
  lemma UnpaddedStep(n: nat, pos: nat)
    requires n % 4 != 0 && pos % 4 == 0 && pos + 5 <= n
    ensures Starts(Unpadded(n), pos)
    ensures Next(Unpadded(n), pos) == if n - pos >= 9 then pos + 4 else pos + 8
  {
    UnpaddedLen(n, pos);
    if n - pos >= 9 {
      assert Align(4) == 4;
    } else {
      LastWord(n - pos);
    }
  }

  lemma WordsFallShort(n: nat, pos: nat)
    requires n % 4 != 0 && pos % 4 == 0 && n < pos + 9
    ensures n < pos + 8
  {
  }

  lemma {:induction false} UnpaddedStops(n: nat, pos: nat)
    requires n % 4 != 0 && pos % 4 == 0 && pos + 5 <= n
    ensures StopsAt(Unpadded(n), pos) > n
    decreases n - pos
  {
    UnpaddedStep(n, pos);
    if n - pos >= 9 {
      SumOfWords(pos, 4);
      UnpaddedStops(n, pos + 4);
      OneStep(Unpadded(n), pos, pos + 4);
    } else {
      WordsFallShort(n, pos);
      OneStep(Unpadded(n), pos, pos + 8);
      AtTheEnd(Unpadded(n), pos + 8);
    }
  }

  lemma OneStep(s: seq<byte>, pos: nat, next: nat)
    requires Starts(s, pos) && next == Next(s, pos)
    ensures StopsAt(s, pos) == StopsAt(s, next)
  {
  }

  lemma AtTheEnd(s: seq<byte>, pos: nat)
    requires pos >= |s|
    ensures StopsAt(s, pos) == pos
  {
  }

  lemma ShortDoesNotOverstep(s: seq<byte>)
    requires |s| < 5
    ensures !Oversteps(s)
  {
    if Starts(s, 0) {
      assert Next(s, 0) == 4;
      assert StopsAt(s, 4) == 4;
    }
  }

  /**
   Some stream of `n` bytes is overstepped exactly if it has room for an attribute and `n` is not a
   multiple of four.
   */
  lemma OverstepsIff(n: nat)
    ensures (exists s: seq<byte> :: |s| == n && Oversteps(s)) <==> n >= 5 && n % 4 != 0
  {
    if n >= 5 && n % 4 != 0 {
      UnpaddedStops(n, 0);
      assert |Unpadded(n)| == n && Oversteps(Unpadded(n));
    }
    forall s: seq<byte> | |s| == n && Oversteps(s)
      ensures n >= 5 && n % 4 != 0
    {
      if n % 4 == 0 {
        PaddedStops(s, 0);
      } else if n < 5 {
        ShortDoesNotOverstep(s);
      }
    }
  }

  /** A padded stream is parsed with no byte behind it, whatever the policy. */
  lemma PaddedNeedsNoMore(s: seq<byte>, maxtype: int, policy: Option<seq<Policy>>)
    requires |s| % 4 == 0 && (policy.Some? ==> |policy.value| == maxtype + 1)
    ensures !LooksBehind(s, |s|, maxtype, policy) && Reachable(s, |s|, maxtype, policy)
  {
    assert s[..|s|] == s;
    PaddedStops(s, 0);
  }

  /** A byte behind a stream is read exactly if it is overstepped and every attribute of known type meets its policy. */
  lemma LooksBehindIff(s: seq<byte>, maxtype: int, policy: Option<seq<Policy>>)
    requires policy.Some? ==> |policy.value| == maxtype + 1
    ensures
      LooksBehind(s, |s|, maxtype, policy) <==>
      Oversteps(s) && forall i :: 0 <= i < |Walk(s, 0)| ==> Fine(Walk(s, 0)[i], maxtype, policy)
  {
    var fs := Walk(s, 0);
    WholeStream(s);
    AllTakenIff(fs, maxtype, policy);
    assert LooksBehind(s, |s|, maxtype, policy) <==> StopsAt(s, 0) > |s| && Taken(fs, maxtype, policy) == fs;
  }

  lemma WholeStream(s: seq<byte>)
    ensures Stream(s, |s|) == s
  {
  }

  /** Five bytes that make nla_ok read a length two words further on, unless a policy refuses the attribute. */
  lemma FiveBytesAreOverstepped()
    ensures
      var s: seq<byte> := [5, 0, 1, 0, 7];
      Oversteps(s) && StopsAt(s, 0) == 8 && LooksBehind(s, |s|, 1, None) && !Reachable(s, |s|, 1, None) &&
      !LooksBehind(s, |s|, 1, Some([Policy(0, 0, 0), Policy(2, 0, 0)]))
  {
    var s: seq<byte> := [5, 0, 1, 0, 7];
    var policy := Some([Policy(0, 0, 0), Policy(2, 0, 0)]);
    FiveBytesWalked(s);
    LooksBehindIff(s, 1, None);
    LooksBehindIff(s, 1, policy);
    assert s[..|s|] == s;
    assert !Fine(Walk(s, 0)[0], 1, policy);
  }

  lemma FiveBytesWalked(s: seq<byte>)
    requires s == [5, 0, 1, 0, 7]
    ensures StopsAt(s, 0) == 8 && |Walk(s, 0)| == 1 && Walk(s, 0)[0].kind == 1 && |Walk(s, 0)[0].payload| == 1
  {
    assert LenAt(s, 0) == 5 && Align(5) == 4 + Align(1) == 8 && StopsAt(s, 8) == 8;
    assert Walk(s, 8) == [] && Walk(s, 0) == [AttrAt(s, 0)];
  }

  // ----- policies -----

  /** Without bounds of its own a policy asks for the width of its kind, or for a terminated string. */
  lemma BarePolicies(payload: seq<byte>)
    ensures forall kind :: kind == 0 || kind >= 6 ==> Meets(Policy(kind, 0, 0), payload)
    ensures Meets(Policy(1, 0, 0), payload) <==> |payload| >= 1
    ensures Meets(Policy(2, 0, 0), payload) <==> |payload| >= 2
    ensures Meets(Policy(3, 0, 0), payload) <==> |payload| >= 4
    ensures Meets(Policy(4, 0, 0), payload) <==> |payload| >= 8
    ensures Meets(Policy(5, 0, 0), payload) <==> |payload| >= 1 && payload[|payload| - 1] == 0
  {
  }

  /** A minimum replaces the width of the kind, a maximum comes on top; kinds above 8 have neither. */
  lemma BoundsIff(kind: nat, minlen: nat, maxlen: nat, payload: seq<byte>)
    requires minlen > 0 || maxlen > 0
    ensures
      Meets(Policy(kind, minlen, maxlen), payload) <==>
      kind > 8 ||
      ((if minlen > 0 then minlen <= |payload| else Meets(Policy(kind, 0, 0), payload)) &&
       (maxlen > 0 ==> |payload| <= maxlen) &&
       (kind == 5 ==> |payload| > 0 && payload[|payload| - 1] == 0))
  {
    BarePolicies(payload);
  }

  // ----- encoding -----

  /** An attribute to send: its type word, flag bits included, and its payload. */
  datatype Attr = Attr(word: nat, payload: seq<byte>)

  predicate Sendable(a: Attr) {
    a.word < TWO_16 && 4 + |a.payload| < TWO_16
  }

  predicate AllSendable(attrs: seq<Attr>) {
    forall i :: 0 <= i < |attrs| ==> Sendable(attrs[i])
  }

  function Len(a: Attr): nat {
    4 + |a.payload|
  }

  function EncodeOne(a: Attr): (bs: seq<byte>)
    requires Sendable(a)
    ensures |bs| == Align(Len(a))
  {
    [Len(a) % 0x100, Len(a) / 0x100, a.word % 0x100, a.word / 0x100] + a.payload + seq(Align(Len(a)) - Len(a), _ => 0)
  }

  function Encode(attrs: seq<Attr>): (bs: seq<byte>)
    requires AllSendable(attrs)
  {
    if |attrs| == 0 then [] else EncodeOne(attrs[0]) + Encode(attrs[1..])
  }

  lemma {:induction false} EncodedIsPadded(attrs: seq<Attr>)
    requires AllSendable(attrs)
    ensures |Encode(attrs)| % 4 == 0
  {
    if |attrs| > 0 {
      AlignIsMultiple(Len(attrs[0]));
      EncodedIsPadded(attrs[1..]);
    }
  }

  /** The attributes as the parser finds them: the flag bits are gone, the offsets known. */
  function Placed(attrs: seq<Attr>, at: nat): seq<Found> {
    if |attrs| == 0 then []
    else [Found(at, attrs[0].word % 0x4000, attrs[0].payload)] + Placed(attrs[1..], at + Align(Len(attrs[0])))
  }

  lemma HeaderStands(a: Attr, s: seq<byte>, pos: nat)
    requires Sendable(a) && pos + Align(Len(a)) <= |s| && s[pos..pos + Align(Len(a))] == EncodeOne(a)
    ensures LenAt(s, pos) == Len(a) && TypeAt(s, pos) == a.word % 0x4000
  {
    var bs := s[pos..pos + Align(Len(a))];
    assert s[pos] == bs[0] && s[pos + 1] == bs[1] && s[pos + 2] == bs[2] && s[pos + 3] == bs[3];
  }

  lemma PayloadStands(a: Attr, s: seq<byte>, pos: nat)
    requires Sendable(a) && pos + Align(Len(a)) <= |s| && s[pos..pos + Align(Len(a))] == EncodeOne(a)
    ensures s[pos + 4..pos + Len(a)] == a.payload
  {
    var bs := s[pos..pos + Align(Len(a))];
    forall i | 0 <= i < |a.payload|
      ensures s[pos + 4 + i] == a.payload[i]
    {
      assert bs[4 + i] == s[pos + 4 + i];
    }
  }

  lemma EncodedStands(a: Attr, s: seq<byte>, pos: nat)
    requires Sendable(a) && pos + Align(Len(a)) <= |s| && s[pos..pos + Align(Len(a))] == EncodeOne(a)
    ensures Stands(a, s, pos)
  {
    HeaderStands(a, s, pos);
    PayloadStands(a, s, pos);
  }

  /** The attribute is found at `pos`. */
  ghost predicate Stands(a: Attr, s: seq<byte>, pos: nat) {
    Starts(s, pos) && Next(s, pos) == pos + Align(Len(a)) && AttrAt(s, pos) == Found(pos, a.word % 0x4000, a.payload)
  }

  /** The attributes are found one behind the other, and `end` is behind the last. */
  ghost predicate AllStand(attrs: seq<Attr>, s: seq<byte>, pos: nat, end: nat) {
    if |attrs| == 0 then pos == end
    else Stands(attrs[0], s, pos) && AllStand(attrs[1..], s, Next(s, pos), end)
  }

  lemma SliceOfSum<T>(s: seq<T>, pos: nat, one: seq<T>, rest: seq<T>)
    requires pos + |one + rest| <= |s| && s[pos..pos + |one + rest|] == one + rest
    ensures s[pos..pos + |one|] == one && s[pos + |one|..pos + |one| + |rest|] == rest
  {
    assert (one + rest)[..|one|] == one && (one + rest)[|one|..] == rest;
  }

  lemma {:induction false} EncodedAllStand(attrs: seq<Attr>, s: seq<byte>, pos: nat, end: nat)
    requires AllSendable(attrs)
    requires end == pos + |Encode(attrs)| && end <= |s| && s[pos..end] == Encode(attrs)
    ensures AllStand(attrs, s, pos, end)
  {
    if |attrs| > 0 {
      SliceOfSum(s, pos, EncodeOne(attrs[0]), Encode(attrs[1..]));
      EncodedStands(attrs[0], s, pos);
      EncodedAllStand(attrs[1..], s, Next(s, pos), end);
    }
  }

  lemma {:induction false} StandingAreWalked(attrs: seq<Attr>, s: seq<byte>, pos: nat, end: nat)
    requires AllStand(attrs, s, pos, end)
    ensures Walk(s, pos) == Placed(attrs, pos) + Walk(s, end)
  {
    if |attrs| > 0 {
      StandingAreWalked(attrs[1..], s, Next(s, pos), end);
      Chain(Walk(s, pos), AttrAt(s, pos), Walk(s, Next(s, pos)), Placed(attrs[1..], Next(s, pos)), Walk(s, end));
    }
  }

  /** Wherever it stands in a stream, an encoding is walked attribute by attribute, each found in its place. */
  lemma WalkUndoesEncode(attrs: seq<Attr>, s: seq<byte>, pos: nat, end: nat)
    requires AllSendable(attrs)
    requires end == pos + |Encode(attrs)| && end <= |s| && s[pos..end] == Encode(attrs)
    ensures Walk(s, pos) == Placed(attrs, pos) + Walk(s, end)
  {
    EncodedAllStand(attrs, s, pos, end);
    StandingAreWalked(attrs, s, pos, end);
  }

  lemma Chain(all: seq<Found>, first: Found, tail: seq<Found>, placed: seq<Found>, rest: seq<Found>)
    requires all == [first] + tail && tail == placed + rest
    ensures all == [first] + placed + rest
  {
  }

  /** The parser reads an encoded stream, no byte behind it, and finds the attributes that were sent. */
  lemma EncodedIsWalked(attrs: seq<Attr>, maxtype: int, policy: Option<seq<Policy>>)
    requires AllSendable(attrs) && (policy.Some? ==> |policy.value| == maxtype + 1)
    ensures !LooksBehind(Encode(attrs), |Encode(attrs)|, maxtype, policy)
    ensures Walk(Stream(Encode(attrs), |Encode(attrs)|), 0) == Placed(attrs, 0)
  {
    var bs := Encode(attrs);
    EncodedIsPadded(attrs);
    PaddedNeedsNoMore(bs, maxtype, policy);
    assert bs[..|bs|] == bs[0..|bs|] == bs;
    WalkUndoesEncode(attrs, bs, 0, |bs|);
  }

  /** It takes them all exactly if every one with a known type meets its policy. */
  lemma EncodedIsTakenIff(attrs: seq<Attr>, maxtype: int, policy: seq<Policy>)
    requires AllSendable(attrs) && |policy| == maxtype + 1
    ensures
      Taken(Placed(attrs, 0), maxtype, Some(policy)) == Placed(attrs, 0) <==>
      forall a :: a in attrs && a.word % 0x4000 <= maxtype ==> Meets(policy[a.word % 0x4000], a.payload)
  {
    var fs := Placed(attrs, 0);
    PlacedAt(attrs, 0);
    AllTakenIff(fs, maxtype, Some(policy));
    forall i | 0 <= i < |attrs|
      ensures
        var kind := attrs[i].word % 0x4000;
        Fine(fs[i], maxtype, Some(policy)) <==> (kind <= maxtype ==> Meets(policy[kind], attrs[i].payload))
    {
    }
  }

  lemma {:induction false} PlacedAt(attrs: seq<Attr>, at: nat)
    ensures |Placed(attrs, at)| == |attrs|
    ensures forall i :: 0 <= i < |attrs| ==>
      Placed(attrs, at)[i].kind == attrs[i].word % 0x4000 && Placed(attrs, at)[i].payload == attrs[i].payload
  {
    if |attrs| > 0 {
      PlacedAt(attrs[1..], at + Align(Len(attrs[0])));
      assert forall i :: 1 <= i < |attrs| ==> attrs[i] == attrs[1..][i - 1];
    }
  }
}
