/** Parsing a BTF type section undoes encoding it. */
module BtfCodec {
  import opened Wrappers
  import opened Bytes
  import opened Btf
  import opened BtfTypes

  /** The bytes `bs` stand in memory at `p`. */
  ghost predicate Holds(mem: Memory, p: int, bs: seq<byte>) {
    forall i :: 0 <= i < |bs| ==> mem(p + i) == bs[i]
  }

  /** Where the records of an encoding at `p` begin: each at the end of the one before. */
  function Starts(recs: seq<Entry>, p: int): (s: seq<int>)
    requires AllEncodable(recs)
    ensures |s| == |recs|
  {
    if |recs| == 0 then [] else [p] + Starts(recs[1..], p + |Encode(recs[0])|)
  }

  /** The parser reads back kind and length of a record. */
  lemma ReadBack(mem: Memory, p: int, name: nat, vlen: nat, unused: byte, kind: nat, top: nat, word: nat)
    requires IsWord(name) && vlen < 0x1_0000 && kind < 0x10 && top < 0x10 && IsWord(word)
    requires Holds(mem, p, Header(name, vlen, unused, kind, top, word))
    ensures KindAt(mem, p) == kind && VlenAt(mem, p) == vlen
  {
    var h := Header(name, vlen, unused, kind, top, word);
    assert mem(p + 4) == h[4] && mem(p + 5) == h[5] && mem(p + 7) == h[7];
    assert h[4] == vlen % 0x100 && h[5] == vlen / 0x100 && h[7] == kind + 0x10 * top;
  }

  lemma HeaderReadBack(mem: Memory, p: int, e: Entry)
    requires Encodable(e) && Holds(mem, p, HeaderOf(e))
    ensures KindAt(mem, p) == KindOf(e.t) && VlenAt(mem, p) == CountOf(e)
  {
    ReadBack(mem, p, e.name, CountOf(e), e.unused, KindOf(e.t), e.top, SizeOrType(e.t));
  }

  /** The parser's step behind a record of any type is the length of what its fields take. */
  lemma TailIsSkipped(e: Entry)
    requires Encodable(e)
    ensures ExtraSize(KindOf(e.t), CountOf(e)) == Some(|Encode(e)| - 12)
  {
    match e.t
    case Struct(_, members) => assert |Tail(e.t)| == 3 * |members|;
    case Union(_, members) => assert |Tail(e.t)| == 3 * |members|;
    case Enum(_, values) => assert |Tail(e.t)| == 2 * |values|;
    case _ =>
  }

  lemma HoldsParts(mem: Memory, p: int, a: seq<byte>, b: seq<byte>)
    requires Holds(mem, p, a + b)
    ensures Holds(mem, p, a) && Holds(mem, p + |a|, b)
  {
    forall i | 0 <= i < |a|
      ensures mem(p + i) == a[i]
    {
      assert a[i] == (a + b)[i];
    }
    forall i | 0 <= i < |b|
      ensures mem(p + |a| + i) == b[i]
    {
      assert b[i] == (a + b)[|a| + i];
      assert p + (|a| + i) == p + |a| + i;
    }
  }

  /** The scan passes a well-formed record. */
  lemma ScanPasses(mem: Memory, p: int, end: int, r: Entry, next: int)
    requires Encodable(r) && Holds(mem, p, Encode(r)) && p < end && next == p + |Encode(r)|
    ensures
      var rest := ScanFrom(mem, next, end);
      ScanFrom(mem, p, end) == Scan([p] + rest.starts, rest.known)
  {
    HoldsParts(mem, p, HeaderOf(r), WordsBytes(Tail(r.t)));
    HeaderReadBack(mem, p, r);
    TailIsSkipped(r);
    ScanStep(mem, p, end, |Encode(r)| - 12, next);
  }

  lemma ScanStep(mem: Memory, p: int, end: int, extra: nat, next: int)
    requires p < end && ExtraSize(KindAt(mem, p), VlenAt(mem, p)) == Some(extra) && next == p + 12 + extra
    ensures
      var rest := ScanFrom(mem, next, end);
      ScanFrom(mem, p, end) == Scan([p] + rest.starts, rest.known)
  {
  }

  /** Where a list of records ends: at the end of the section, or at a record of an unknown kind. */
  ghost predicate ListEnds(mem: Memory, behind: int, end: int) {
    behind == end || (behind < end && ExtraSize(KindAt(mem, behind), VlenAt(mem, behind)).None?)
  }

  lemma FirstOfAll(mem: Memory, p: int, recs: seq<Entry>)
    requires AllEncodable(recs) && |recs| > 0 && Holds(mem, p, EncodeAll(recs))
    ensures
      var next := p + |Encode(recs[0])|;
      Holds(mem, p, Encode(recs[0])) && Holds(mem, next, EncodeAll(recs[1..])) &&
      p + |EncodeAll(recs)| == next + |EncodeAll(recs[1..])| && next > p
    ensures Starts(recs, p) == [p] + Starts(recs[1..], p + |Encode(recs[0])|)
  {
    HoldsParts(mem, p, Encode(recs[0]), EncodeAll(recs[1..]));
  }

  /**
   Scanning an encoded list of records finds each of them, and nothing else, whatever
   stands behind the list; if an unknown kind stands there, the scan ends in it.
   */
  lemma {:induction false} ScanEncoded(mem: Memory, p: int, behind: int, end: int, recs: seq<Entry>)
    requires AllEncodable(recs)
    requires Holds(mem, p, EncodeAll(recs)) && behind == p + |EncodeAll(recs)| && ListEnds(mem, behind, end)
    ensures ScanFrom(mem, p, end) == Scan(Starts(recs, p), behind == end)
    ensures p <= behind
    decreases |recs|
  {
    if |recs| > 0 {
      var next := p + |Encode(recs[0])|;
      FirstOfAll(mem, p, recs);
      ScanEncoded(mem, next, behind, end, recs[1..]);
      ScanPasses(mem, p, end, recs[0], next);
    }
  }

  /** What a parse of encoded records into an empty table must end in. */
  lemma ParseUndoesEncode(mem: Memory, p: int, recs: seq<Entry>, r: Status<Errno>, ids: seq<TypePtr>)
    requires 0 < |recs| < BTF_MAX_NR_TYPES && AllEncodable(recs)
    requires Holds(mem, p, EncodeAll(recs))
    requires
      var scan := ScanFrom(mem, p, p + |EncodeAll(recs)|);
      Parsed([], 0, scan.starts, scan.known, r, ids)
    ensures r == Done && |ids| == |recs| + 1 && ids[0] == Void
    ensures forall i :: 1 <= i <= |recs| ==> ids[i] == Record(Starts(recs, p)[i - 1])
  {
    var end := p + |EncodeAll(recs)|;
    ScanEncoded(mem, p, end, end, recs);
    ParsedAll(Starts(recs, p), r, ids);
  }

  lemma ParsedAll(starts: seq<int>, r: Status<Errno>, ids: seq<TypePtr>)
    requires 0 < |starts| < BTF_MAX_NR_TYPES && Parsed([], 0, starts, true, r, ids)
    ensures r == Done && |ids| == |starts| + 1 && ids[0] == Void
    ensures forall i :: 1 <= i <= |starts| ==> ids[i] == Record(starts[i - 1])
  {
  }

  lemma ParsedUnknown(starts: seq<int>, r: Status<Errno>, ids: seq<TypePtr>)
    requires |starts| < BTF_MAX_NR_TYPES && Parsed([], 0, starts, false, r, ids)
    ensures r == Failed(EINVAL) && ids == Filled([], starts)
  {
  }

  lemma UnknownEnds(mem: Memory, behind: int, end: int, name: nat, vlen: nat, unused: byte, kind: nat, top: nat,
                    word: nat)
    requires IsWord(name) && vlen < 0x1_0000 && kind < 0x10 && top < 0x10 && IsWord(word) && (kind == 0 || kind > 11)
    requires behind < end && Holds(mem, behind, Header(name, vlen, unused, kind, top, word))
    ensures ListEnds(mem, behind, end)
  {
    ReadBack(mem, behind, name, vlen, unused, kind, top, word);
  }

  /** The first record of an unknown kind ends the parse with an error, after everything before it was added. */
  lemma UnknownKindIsRefused(
    mem: Memory, p: int, end: int, recs: seq<Entry>, name: nat, vlen: nat, unused: byte, kind: nat, top: nat, word: nat,
    r: Status<Errno>, ids: seq<TypePtr>)
    requires |recs| < BTF_MAX_NR_TYPES && AllEncodable(recs)
    requires IsWord(name) && vlen < 0x1_0000 && kind < 0x10 && top < 0x10 && IsWord(word) && (kind == 0 || kind > 11)
    requires Holds(mem, p, EncodeAll(recs))
    requires Holds(mem, p + |EncodeAll(recs)|, Header(name, vlen, unused, kind, top, word))
    requires p + |EncodeAll(recs)| < end
    requires
      var scan := ScanFrom(mem, p, end);
      Parsed([], 0, scan.starts, scan.known, r, ids)
    ensures r == Failed(EINVAL) && ids == Filled([], Starts(recs, p))
  {
    var behind := p + |EncodeAll(recs)|;
    UnknownEnds(mem, behind, end, name, vlen, unused, kind, top, word);
    ScanEncoded(mem, p, behind, end, recs);
    ParsedUnknown(Starts(recs, p), r, ids);
  }

  /** Every record ends at least one header behind where it starts, so the cursor always moves on. */
  lemma {:induction false} StartsGrow(mem: Memory, p: int, end: int)
    ensures
      var s := ScanFrom(mem, p, end).starts;
      (|s| > 0 ==> s[0] == p) &&
      forall i :: 0 <= i < |s| ==> s[i] < end && (i + 1 < |s| ==> s[i + 1] >= s[i] + TYPE_SIZE)
    decreases end - p
  {
    var extra := ExtraSize(KindAt(mem, p), VlenAt(mem, p));
    if p < end && extra.Some? {
      StartsGrow(mem, p + TYPE_SIZE + extra.value, end);
    }
  }
}
