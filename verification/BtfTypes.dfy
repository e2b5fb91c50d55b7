/** The records of a BTF type section, field by field, as linux/btf.h lays them out. */
module BtfTypes {
  import opened Bytes

  datatype Member = Member(name: nat, typeId: nat, offset: nat)

  datatype EnumValue = EnumValue(name: nat, value: nat)

  /** A type and what it says of others, by id; the third word of an array or a forward declaration says nothing. */
  datatype Type =
    | Int(size: nat, encoding: nat)
    | Ptr(to: nat)
    | Array(spare: nat, elem: nat, index: nat, n: nat)
    | Struct(size: nat, members: seq<Member>)
    | Union(size: nat, members: seq<Member>)
    | Enum(size: nat, values: seq<EnumValue>)
    | Fwd(spare: nat)
    | Typedef(to: nat)
    | Volatile(to: nat)
    | Const(to: nat)
    | Restrict(to: nat)

  /** A record: its type and name, and the bits that mean nothing; `vlen` stands where nothing is counted. */
  datatype Entry = Entry(name: nat, vlen: nat, unused: byte, top: nat, t: Type)

  /** BTF_KIND_INT to BTF_KIND_RESTRICT. */
  function KindOf(t: Type): nat {
    match t
    case Int(_, _) => 1
    case Ptr(_) => 2
    case Array(_, _, _, _) => 3
    case Struct(_, _) => 4
    case Union(_, _) => 5
    case Enum(_, _) => 6
    case Fwd(_) => 7
    case Typedef(_) => 8
    case Volatile(_) => 9
    case Const(_) => 10
    case Restrict(_) => 11
  }

  /** The length field: members or values, where there are any. */
  function CountOf(e: Entry): nat {
    match e.t
    case Struct(_, members) => |members|
    case Union(_, members) => |members|
    case Enum(_, values) => |values|
    case _ => e.vlen
  }

  /** The word that `size` and `type` share. */
  function SizeOrType(t: Type): nat {
    match t
    case Int(size, _) => size
    case Ptr(to) => to
    case Array(spare, _, _, _) => spare
    case Struct(size, _) => size
    case Union(size, _) => size
    case Enum(size, _) => size
    case Fwd(spare) => spare
    case Typedef(to) => to
    case Volatile(to) => to
    case Const(to) => to
    case Restrict(to) => to
  }

  predicate IsWord(x: nat) {
    x < 0x1_0000_0000
  }

  predicate AllWords(xs: seq<nat>) {
    forall i :: 0 <= i < |xs| ==> IsWord(xs[i])
  }

  /** The words behind the common part. */
  function Tail(t: Type): seq<nat> {
    match t
    case Int(_, encoding) => [encoding]
    case Array(_, elem, index, n) => [elem, index, n]
    case Struct(_, members) => MemberWords(members)
    case Union(_, members) => MemberWords(members)
    case Enum(_, values) => ValueWords(values)
    case _ => []
  }

  function MemberWords(ms: seq<Member>): (ws: seq<nat>)
    ensures |ws| == 3 * |ms|
  {
    if |ms| == 0 then [] else [ms[0].name, ms[0].typeId, ms[0].offset] + MemberWords(ms[1..])
  }

  function ValueWords(vs: seq<EnumValue>): (ws: seq<nat>)
    ensures |ws| == 2 * |vs|
  {
    if |vs| == 0 then [] else [vs[0].name, vs[0].value] + ValueWords(vs[1..])
  }

  /** Every field fits its bits. */
  predicate Encodable(e: Entry) {
    IsWord(e.name) && CountOf(e) < 0x1_0000 && e.top < 0x10 && IsWord(SizeOrType(e.t)) && AllWords(Tail(e.t))
  }

  predicate AllEncodable(es: seq<Entry>) {
    forall i :: 0 <= i < |es| ==> Encodable(es[i])
  }

  // ----- bytes -----

  function WordBytes(x: nat): (bs: seq<byte>)
    requires IsWord(x)
    ensures |bs| == 4
  {
    [x % 0x100, x / 0x100 % 0x100, x / 0x100 / 0x100 % 0x100, x / 0x100 / 0x100 / 0x100]
  }

  function WordsBytes(xs: seq<nat>): (bs: seq<byte>)
    requires AllWords(xs)
    ensures |bs| == 4 * |xs|
  {
    if |xs| == 0 then [] else WordBytes(xs[0]) + WordsBytes(xs[1..])
  }

  /** The common part; in the info word, bits 0 to 15 are the length and bits 24 to 27 the kind. */
  function Header(name: nat, vlen: nat, unused: byte, kind: nat, top: nat, word: nat): (bs: seq<byte>)
    requires IsWord(name) && vlen < 0x1_0000 && kind < 0x10 && top < 0x10 && IsWord(word)
    ensures |bs| == 12
  {
    WordBytes(name) + [vlen % 0x100, vlen / 0x100, unused, kind + 0x10 * top] + WordBytes(word)
  }

  function HeaderOf(e: Entry): (bs: seq<byte>)
    requires Encodable(e)
    ensures |bs| == 12
  {
    Header(e.name, CountOf(e), e.unused, KindOf(e.t), e.top, SizeOrType(e.t))
  }

  function Encode(e: Entry): (bs: seq<byte>)
    requires Encodable(e)
    ensures |bs| == 12 + 4 * |Tail(e.t)|
  {
    HeaderOf(e) + WordsBytes(Tail(e.t))
  }

  function EncodeAll(es: seq<Entry>): seq<byte>
    requires AllEncodable(es)
  {
    if |es| == 0 then [] else Encode(es[0]) + EncodeAll(es[1..])
  }

  lemma WordBack(x: nat)
    requires IsWord(x)
    ensures
      var b := WordBytes(x);
      Le32(b[0], b[1], b[2], b[3]) == x
  {
    var y := x / 0x100;
    var z := y / 0x100;
    Digits(x);
    Digits(y);
    Digits(z);
  }

  lemma Digits(x: nat)
    ensures x == x % 0x100 + 0x100 * (x / 0x100)
  {
  }
}
