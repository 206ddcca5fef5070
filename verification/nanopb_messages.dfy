/** Messages of nanopb and their wire format (pb.h, pb_encode.c): descriptors of static
    fields, message structs as trees, and the bytes pb_encode writes for them. */
module NanopbMessages {
  import opened InternalKeys
  import opened Coding

  // ---- descriptors ----

  /** PB_LTYPE_*; a submessage has its own field list. */
  datatype LType =
    | Bool | SignedVarint | UnsignedVarint | ZigZagVarint | Fixed4 | Fixed8
    | BytesArray | CString | FixedBytes
    | Submessage(members: seq<Member>)

  /** PB_HTYPE_* of a static field.  Singular is an optional field without has_, FixedCount
      a repeated one without a count. */
  datatype Rule = Required | Optional | Singular | Repeated | FixedCount

  /** pb_field_t; `init` is the default value, if the descriptor has one. */
  datatype Field = Field(tag: Word, ltype: LType, dataSize: Word, init: Option<Val>)

  /** A field of the struct, or a union with the fields of a oneof. */
  datatype Member =
    | Plain(f: Field, rule: Rule, arraySize: Word)
    | Union(fields: seq<Field>)

  /** The data of one item: a number, bytes, or a struct. */
  datatype Val = Num(n: int) | Raw(bs: Bytes) | Struct(slots: seq<Slot>)

  /** What the struct holds for a member, contents of absent fields included. */
  datatype Slot = One(v: Val) | Opt(has: bool, o: Val) | Many(count: Word, items: seq<Val>) | Which(which: Word, u: Val)

  predicate Packable(l: LType) { !(l.BytesArray? || l.CString? || l.FixedBytes? || l.Submessage?) }

  // ---- values ----

  const P31 := 0x8000_0000
  const P32 := 0x1_0000_0000
  const P63 := 0x8000_0000_0000_0000
  const P64 := 0x1_0000_0000_0000_0000

  /** int8_t, int16_t, int32_t, int64_t and their unsigned counterparts. */
  predicate IntSize(size: nat) { size == 1 || size == 2 || size == 4 || size == 8 }

  function HalfRange(size: nat): int
    requires IntSize(size)
  { if size == 1 then 0x80 else if size == 2 then 0x8000 else if size == 4 then P31 else P63 }

  predicate NumFits(l: LType, size: nat, n: int) {
    match l
    case Bool => n == 0 || n == 1
    case SignedVarint => IntSize(size) && -HalfRange(size) <= n < HalfRange(size)
    case ZigZagVarint => IntSize(size) && -HalfRange(size) <= n < HalfRange(size)
    case UnsignedVarint => IntSize(size) && 0 <= n < 2 * HalfRange(size)
    case Fixed4 => 0 <= n < P32
    case Fixed8 => 0 <= n < P64
    case _ => false
  }

  /** offsetof(pb_bytes_array_t, bytes), with PB_FIELD_32BIT. */
  const BYTES_OFFSET := 4

  /** The struct has the shape of its descriptor; this is C's type system. */
  predicate ValOk(l: LType, size: nat, v: Val)
    decreases l, 2, 0
  {
    match l
    case BytesArray => v.Raw? && size >= BYTES_OFFSET
    case CString => v.Raw? && |v.bs| == size
    case FixedBytes => v.Raw? && |v.bs| == size
    case Submessage(_) => v.Struct? && SlotsOk(l, v.slots)
    case _ => v.Num? && NumFits(l, size, v.n)
  }

  predicate SlotsOk(l: LType, slots: seq<Slot>)
    requires l.Submessage?
    decreases l, 1, 0
  {
    |slots| == |l.members| && forall i :: 0 <= i < |slots| ==> SlotOk(l, i, slots[i])
  }

  predicate SlotOk(l: LType, i: nat, s: Slot)
    requires l.Submessage? && i < |l.members|
    decreases l, 0, 0
  {
    match l.members[i]
    case Plain(f, rule, arraySize) =>
      (match rule
       case Required => s.One? && ValOk(f.ltype, f.dataSize, s.v)
       case Singular => s.One? && ValOk(f.ltype, f.dataSize, s.v)
       case Optional => s.Opt? && ValOk(f.ltype, f.dataSize, s.o)
       case Repeated => s.Many? && |s.items| == arraySize && forall k :: 0 <= k < |s.items| ==>
             ValOk(f.ltype, f.dataSize, s.items[k])
       case FixedCount => s.Many? && s.count == 0 && |s.items| == arraySize && forall k :: 0 <= k < |s.items| ==>
             ValOk(f.ltype, f.dataSize, s.items[k]))
    case Union(fields) => s.Which? && forall j :: 0 <= j < |fields| && s.which == fields[j].tag ==>
          ValOk(fields[j].ltype, fields[j].dataSize, s.u)
  }

  // ---- the bytes of one item ----

  function Unsigned64(n: int): nat
    requires -P63 <= n < P64
  { if n < 0 then n + P64 else n }

  /** pb_encode_svarint: ~(v << 1) for negative numbers. */
  function ZigZag(n: int): nat { if n < 0 then -2 * n - 1 else 2 * n }

  function Delimited(bs: Bytes): Bytes { Varint(|bs|) + bs }

  /** The string up to its terminator, or the whole buffer. */
  function UpToZero(bs: Bytes): (r: Bytes)
    ensures r <= bs && 0 !in r && (|r| < |bs| ==> bs[|r|] == 0)
  {
    if bs == [] || bs[0] == 0 then [] else [bs[0]] + UpToZero(bs[1..])
  }

  lemma {:induction false} UpToZeroIs(bs: Bytes, n: nat)
    requires n <= |bs| && 0 !in bs[..n] && (n < |bs| ==> bs[n] == 0)
    ensures UpToZero(bs) == bs[..n]
    decreases n
  {
    if n > 0 {
      assert bs[0] == bs[..n][0] && bs[1..][..n - 1] == bs[..n][1..];
      UpToZeroIs(bs[1..], n - 1);
    }
  }

  function NumBytes(l: LType, size: nat, n: int): Bytes
    requires NumFits(l, size, n)
  {
    match l
    case SignedVarint => Varint(Unsigned64(n))
    case ZigZagVarint => Varint(ZigZag(n))
    case Fixed4 => Fixed32(n)
    case Fixed8 => Fixed64(n)
    case _ => Varint(n)
  }

  function WireType(l: LType): nat {
    match l
    case Fixed4 => 5
    case Fixed8 => 1
    case BytesArray => 2
    case CString => 2
    case FixedBytes => 2
    case Submessage(_) => 2
    case _ => 0
  }

  /** pb_encode_tag: the tag is shifted in 64 bits. */
  function TagBytes(wire: nat, tag: Word): Bytes
    requires wire < 8
  { Varint(tag * 8 + wire) }

  // ---- proto3 defaults ----

  /** pb_check_proto3_default_value on a field of a submessage. */
  predicate SlotIsDefault(l: LType, i: nat, s: Slot)
    requires l.Submessage? && i < |l.members| && SlotOk(l, i, s)
    decreases l, 0, 0
  {
    match l.members[i]
    case Plain(f, rule, _) =>
      (match rule
       case Required => false
       case FixedCount => false
       case Repeated => s.count == 0
       case Optional => !s.has
       case Singular => IsDefault(f.ltype, f.dataSize, s.v))
    case Union(_) => s.which == 0
  }

  /** pb_check_proto3_default_value on a singular field. */
  predicate IsDefault(l: LType, size: nat, v: Val)
    requires ValOk(l, size, v)
    decreases l, 2, 0
  {
    match l
    case BytesArray => v.bs == []
    case CString => v.bs == [] || v.bs[0] == 0
    case FixedBytes => size == 0
    case Submessage(_) => SlotsDefault(l, v.slots)
    case _ => v.n == 0
  }

  predicate SlotsDefault(l: LType, slots: seq<Slot>)
    requires l.Submessage? && SlotsOk(l, slots)
    decreases l, 1, 0
  {
    forall i :: 0 <= i < |slots| ==> SlotIsDefault(l, i, slots[i])
  }

  // ---- the bytes of a message ----

  /** The encoder of an item; None is an error. */
  function ValBytes(l: LType, size: nat, v: Val): Option<Bytes>
    requires ValOk(l, size, v)
    decreases l, 3, 0
  {
    match l
    case BytesArray => if |v.bs| > size - BYTES_OFFSET then None else Some(Delimited(v.bs))
    case CString => Some(Delimited(UpToZero(v.bs)))
    case FixedBytes => Some(Delimited(v.bs))
    case Submessage(members) =>
      (match SlotsBytes(l, v.slots, |members|) case None => None case Some(bs) => Some(Delimited(bs)))
    case _ => Some(NumBytes(l, size, v.n))
  }

  function Join(a: Option<Bytes>, b: Option<Bytes>): Option<Bytes> {
    if a.Some? && b.Some? then Some(a.value + b.value) else None
  }

  /** A tag with one item. */
  function TaggedBytes(f: Field, v: Val): Option<Bytes>
    requires ValOk(f.ltype, f.dataSize, v)
    decreases f.ltype, 4, 0
  {
    Join(Some(TagBytes(WireType(f.ltype), f.tag)), ValBytes(f.ltype, f.dataSize, v))
  }

  /** The first n items one after the other, with or without tags. */
  function ItemsBytes(f: Field, items: seq<Val>, n: nat, tagged: bool): Option<Bytes>
    requires n <= |items| && forall k :: 0 <= k < |items| ==> ValOk(f.ltype, f.dataSize, items[k])
    decreases f.ltype, 5, n
  {
    if n == 0 then Some([])
    else Join(ItemsBytes(f, items, n - 1, tagged),
              if tagged then TaggedBytes(f, items[n - 1]) else ValBytes(f.ltype, f.dataSize, items[n - 1]))
  }

  /** encode_array. */
  function ArrayBytes(f: Field, arraySize: nat, items: seq<Val>, count: nat): Option<Bytes>
    requires |items| == arraySize && forall k :: 0 <= k < |items| ==> ValOk(f.ltype, f.dataSize, items[k])
    decreases f.ltype, 6, 0
  {
    if count == 0 then Some([])
    else if count > arraySize then None
    else if Packable(f.ltype) then
      match ItemsBytes(f, items, count, false)
      case None => None
      case Some(bs) => Some(TagBytes(2, f.tag) + Delimited(bs))
    else ItemsBytes(f, items, count, true)
  }

  /** encode_basic_field on one struct member. */
  function SlotBytes(l: LType, i: nat, s: Slot): Option<Bytes>
    requires l.Submessage? && i < |l.members| && SlotOk(l, i, s)
    decreases l, 0, 0
  {
    match l.members[i]
    case Plain(f, rule, arraySize) =>
      (match rule
       case Required => TaggedBytes(f, s.v)
       case Optional => if s.has then TaggedBytes(f, s.o) else Some([])
       case Singular => if IsDefault(f.ltype, f.dataSize, s.v) then Some([]) else TaggedBytes(f, s.v)
       case Repeated => ArrayBytes(f, arraySize, s.items, s.count)
       case FixedCount => ArrayBytes(f, arraySize, s.items, arraySize))
    case Union(fields) => UnionBytes(l, i, s, |fields|)
  }

  /** The first n fields of a oneof. */
  function UnionBytes(l: LType, i: nat, s: Slot, n: nat): Option<Bytes>
    requires l.Submessage? && i < |l.members| && l.members[i].Union? && n <= |l.members[i].fields| && SlotOk(l, i, s)
    decreases l, 0, 0, n
  {
    if n == 0 then Some([]) else
      var f := l.members[i].fields[n - 1];
      Join(UnionBytes(l, i, s, n - 1), if s.which == f.tag then TaggedBytes(f, s.u) else Some([]))
  }

  /** pb_encode on the first n members. */
  function SlotsBytes(l: LType, slots: seq<Slot>, n: nat): Option<Bytes>
    requires l.Submessage? && SlotsOk(l, slots) && n <= |slots|
    decreases l, 2, n
  {
    if n == 0 then Some([]) else Join(SlotsBytes(l, slots, n - 1), SlotBytes(l, n - 1, slots[n - 1]))
  }

  /** pb_encode: the message type is a submessage type at the top. */
  function MessageBytes(l: LType, v: Val): Option<Bytes>
    requires l.Submessage? && ValOk(l, 0, v)
  {
    SlotsBytes(l, v.slots, |l.members|)
  }
}
