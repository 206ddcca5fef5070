/** pb_decode (pb_decode.c, pb_common.c): a loop over tags that fills the struct of a message
    type, with substreams for packed arrays and submessages. */
module NanopbDecode {
  import opened InternalKeys
  import opened Coding
  import opened NanopbMessages

  // ---- numbers on the wire; a stream is what lies between p and limit ----

  /** pb_decode_varint: ten bytes at most, in 64 bits. */
  function Varint64At(data: Bytes, p: nat, limit: nat): (r: Option<(Word64, nat)>)
    requires limit <= |data|
    ensures r.Some? ==> p < r.value.1 <= limit
  {
    match DecodeVarint(data, p, limit, 10)
    case None => None
    case Some(r) => Some((Low64(r.0), r.1))
  }

  /** The rest of pb_decode_varint32 after some bytes; m is 1 << bitpos as long as that is
      below 32.  Behind 32 bits only zeros or the sign of a negative number may follow. */
  function Varint32Rest(data: Bytes, p: nat, limit: nat, bitpos: nat, m: nat, result: Word): (r: Option<(Word, nat)>)
    requires limit <= |data|
    ensures r.Some? ==> p < r.value.1 <= limit
    decreases limit - p
  {
    if p >= limit then None else
      var byte := data[p];
      var digit := byte % 128;
      var signExtension := if bitpos < 63 then 0xFF else 0x01;
      if bitpos >= 32 && digit != 0 && (result < 0x8000_0000 || byte != signExtension) then None else
        var result' := if bitpos >= 32 then result else Low32(result + Shifted(digit, m));
        if byte >= 128 then Varint32Rest(data, p + 1, limit, bitpos + 7, 128 * m, result')
        else if bitpos == 28 && byte >= 16 then None
        else Some((result', p + 1))
  }

  function Varint32At(data: Bytes, p: nat, limit: nat): (r: Option<(Word, nat)>)
    requires limit <= |data|
    ensures r.Some? ==> p < r.value.1 <= limit
  {
    if p >= limit then None
    else if data[p] < 128 then Some((data[p], p + 1))
    else Varint32Rest(data, p + 1, limit, 7, 128, data[p] - 128)
  }

  datatype TagRead = NoTag | End | Tag(wire: nat, tag: Word, next: nat)

  /** pb_decode_tag: a zero ends the message. */
  function TagAt(data: Bytes, p: nat, limit: nat): (r: TagRead)
    requires limit <= |data|
    ensures r.Tag? ==> p < r.next <= limit && r.wire < 8
  {
    match Varint32At(data, p, limit)
    case None => NoTag
    case Some(t) => if t.0 == 0 then End else Tag(t.0 % 8, t.0 / 8, t.1)
  }

  /** pb_read. */
  function RawAt(data: Bytes, p: nat, limit: nat, n: nat): (r: Option<(Bytes, nat)>)
    requires p <= limit <= |data|
    ensures r.Some? ==> r.value.1 == p + n <= limit && |r.value.0| == n
  {
    if limit - p < n then None else Some((data[p..p + n], p + n))
  }

  function SkipVarint(data: Bytes, p: nat, limit: nat): (r: Option<nat>)
    requires p <= limit <= |data|
    ensures r.Some? ==> p < r.value <= limit
    decreases limit - p
  {
    if p == limit then None else if data[p] >= 128 then SkipVarint(data, p + 1, limit) else Some(p + 1)
  }

  /** pb_skip_field. */
  function SkipField(wire: nat, data: Bytes, p: nat, limit: nat): (r: Option<nat>)
    requires p <= limit <= |data|
    ensures r.Some? ==> p <= r.value <= limit
  {
    if wire == 0 then SkipVarint(data, p, limit)
    else if wire == 1 then (if limit - p < 8 then None else Some(p + 8))
    else if wire == 5 then (if limit - p < 4 then None else Some(p + 4))
    else if wire == 2 then
      match Varint32At(data, p, limit)
      case None => None
      case Some(n) => if limit - n.1 < n.0 then None else Some(n.1 + n.0)
    else None
  }

  /** pb_make_string_substream: where the substream begins and ends. */
  function SubstreamAt(data: Bytes, p: nat, limit: nat): (r: Option<(nat, nat)>)
    requires limit <= |data|
    ensures r.Some? ==> p < r.value.0 <= r.value.1 <= limit
  {
    match Varint32At(data, p, limit)
    case None => None
    case Some(n) => if limit - n.1 < n.0 then None else Some((n.1, n.1 + n.0))
  }

  function Signed64(v: Word64): int { if v < P63 then v else v - P64 }

  function Signed32(v: Word): int { if v < P31 then v else v - P32 }

  function Fitting(size: nat, n: int, next: nat): Option<(int, nat)> {
    if IntSize(size) && -HalfRange(size) <= n < HalfRange(size) then Some((n, next)) else None
  }

  /** pb_dec_bool, pb_dec_varint, pb_dec_uvarint, pb_dec_svarint, pb_dec_fixed32, pb_dec_fixed64. */
  function NumAt(l: LType, size: nat, data: Bytes, p: nat, limit: nat): (r: Option<(int, nat)>)
    requires Packable(l) && p <= limit <= |data|
    ensures r.Some? ==> p < r.value.1 <= limit && NumFits(l, size, r.value.0)
  {
    if l.Bool? then
      match Varint32At(data, p, limit) case None => None case Some(v) => Some((if v.0 != 0 then 1 else 0, v.1))
    else if l.Fixed4? then
      match RawAt(data, p, limit, 4) case None => None case Some(r) => Some((DecodeFixed32(r.0), r.1))
    else if l.Fixed8? then
      match RawAt(data, p, limit, 8) case None => None case Some(r) => Some((DecodeFixed64(r.0), r.1))
    else
      match Varint64At(data, p, limit)
      case None => None
      case Some(v) =>
        if l.SignedVarint? then Fitting(size, if size == 8 then Signed64(v.0) else Signed32(Low32(v.0)), v.1)
        else if l.ZigZagVarint? then Fitting(size, if v.0 % 2 == 1 then -(v.0 / 2) - 1 else v.0 / 2, v.1)
        else if IntSize(size) && v.0 < 2 * HalfRange(size) then Some((v.0, v.1)) else None
  }

  // ---- descriptors that are right ----

  predicate HasField(m: Member, j: nat) { match m case Plain(_, _, _) => j == 0 case Union(fields) => j < |fields| }

  predicate HasTag(m: Member, j: nat, tag: Word) {
    HasField(m, j) && (match m case Plain(f, _, _) => f.tag == tag case Union(fields) => fields[j].tag == tag)
  }

  ghost predicate UniqueTags(members: seq<Member>) {
    forall i, j, i', j', tag ::
      0 <= i < |members| && 0 <= i' < |members| && HasTag(members[i], j, tag) && HasTag(members[i'], j', tag) ==>
        i == i' && j == j'
  }

  /** Field numbers end at 2^29 - 1 in protocol buffers. */
  const MAX_TAG := 0x2000_0000

  ghost predicate InitOk(l: LType, size: nat, init: Option<Val>) { init.Some? ==> ValOk(l, size, init.value) }

  /** Descriptors whose sizes and defaults are right, also inside submessages. */
  ghost predicate FieldOk(f: Field)
    decreases f.ltype, 3
  {
    && 0 < f.tag < MAX_TAG && TypeOk(f.ltype)
    && (f.ltype.Submessage? ==> f.init == None) && InitOk(f.ltype, f.dataSize, f.init)
    && (f.ltype.BytesArray? ==> f.dataSize >= BYTES_OFFSET)
    && (f.ltype.SignedVarint? || f.ltype.UnsignedVarint? || f.ltype.ZigZagVarint? ==> IntSize(f.dataSize))
  }

  ghost predicate TypeOk(l: LType)
    decreases l, 2
  {
    l.Submessage? ==> UniqueTags(l.members) && forall i :: 0 <= i < |l.members| ==> MemberOk(l, i)
  }

  ghost predicate MemberOk(l: LType, i: nat)
    requires l.Submessage? && i < |l.members|
    decreases l, 1
  {
    match l.members[i]
    case Plain(f, rule, _) => FieldOk(f) && (rule.Singular? ==> f.init == None)
    case Union(fields) => fields != [] && forall j :: 0 <= j < |fields| ==> FieldOk(fields[j])
  }

  // ---- defaults ----

  /** What memset to zero leaves. */
  function ZeroVal(l: LType, size: nat): (v: Val)
    requires TypeOk(l) && (l.BytesArray? ==> size >= BYTES_OFFSET)
    requires l.SignedVarint? || l.UnsignedVarint? || l.ZigZagVarint? ==> IntSize(size)
    ensures ValOk(l, size, v)
    decreases l, 2
  {
    if l.BytesArray? then Raw([])
    else if l.CString? || l.FixedBytes? then Raw(Zeros(size))
    else if l.Submessage? then Struct(seq(|l.members|, i requires 0 <= i < |l.members| => ZeroSlot(l, i)))
    else Num(0)
  }

  function ZeroSlot(l: LType, i: nat): (s: Slot)
    requires l.Submessage? && TypeOk(l) && i < |l.members|
    ensures SlotOk(l, i, s)
    decreases l, 1
  {
    assert MemberOk(l, i);
    match l.members[i]
    case Plain(f, rule, n) =>
      var v := ZeroVal(f.ltype, f.dataSize);
      (match rule
       case Required => One(v)
       case Singular => One(v)
       case Optional => Opt(false, v)
       case Repeated => Many(0, seq(n, _ => v))
       case FixedCount => Many(0, seq(n, _ => v)))
    case Union(_) => Which(0, Num(0))
  }

  /** pb_field_set_to_default: contents behind a count or a oneof stay what they were. */
  function DefaultVal(f: Field, was: Val): (v: Val)
    requires FieldOk(f) && ValOk(f.ltype, f.dataSize, was)
    ensures ValOk(f.ltype, f.dataSize, v)
    decreases f.ltype, 2
  {
    if f.ltype.Submessage? then Struct(Defaults(f.ltype, was.slots))
    else if f.init.Some? then f.init.value
    else ZeroVal(f.ltype, f.dataSize)
  }

  function DefaultSlot(l: LType, i: nat, s: Slot): (r: Slot)
    requires l.Submessage? && TypeOk(l) && i < |l.members| && SlotOk(l, i, s)
    ensures SlotOk(l, i, r)
    decreases l, 0
  {
    assert MemberOk(l, i);
    match l.members[i]
    case Plain(f, rule, n) =>
      (match rule
       case Required => One(DefaultVal(f, s.v))
       case Singular => One(DefaultVal(f, s.v))
       case Optional => Opt(false, DefaultVal(f, s.o))
       case Repeated => s.(count := 0)
       case FixedCount => s)
    case Union(_) => s.(which := 0)
  }

  /** pb_message_set_to_defaults. */
  function Defaults(l: LType, slots: seq<Slot>): (r: seq<Slot>)
    requires l.Submessage? && TypeOk(l) && SlotsOk(l, slots)
    ensures SlotsOk(l, r)
    decreases l, 1
  {
    seq(|slots|, i requires 0 <= i < |slots| => DefaultSlot(l, i, slots[i]))
  }

  // ---- reading a message ----

  /** What the loop of pb_decode_noinit keeps: the struct, the fixed count field it is in and
      how many of its items it has, and the required fields seen. */
  datatype State = State(slots: seq<Slot>, fixedField: Option<nat>, fixedSize: nat, seen: set<nat>)

  predicate IsFixed(l: LType, i: nat)
    requires l.Submessage?
  { i < |l.members| && l.members[i].Plain? && l.members[i].rule.FixedCount? }

  ghost predicate StateOk(l: LType, st: State)
    requires l.Submessage?
  {
    SlotsOk(l, st.slots) && (st.fixedField.Some? ==> IsFixed(l, st.fixedField.value))
  }

  /** required_field_index of member i. */
  function RequiredBefore(members: seq<Member>, i: nat): nat
    requires i <= |members|
  {
    if i == 0 then 0 else
      RequiredBefore(members, i - 1)
      + (if members[i - 1].Plain? && members[i - 1].rule.Required? then 1 else 0)
  }

  const MAX_REQUIRED := 64  // PB_MAX_REQUIRED_FIELDS

  /** pb_field_iter_find: the member with this tag and the place in its oneof. */
  function Find(members: seq<Member>, tag: Word, from: nat): (r: Option<(nat, nat)>)
    requires from <= |members|
    ensures r.Some? ==> r.value.0 < |members| && HasTag(members[r.value.0], r.value.1, tag)
    ensures r.None? ==> forall i, j :: from <= i < |members| ==> !HasTag(members[i], j, tag)
    decreases |members| - from
  {
    if from == |members| then None
    else match FindIn(members[from], tag, 0)
      case Some(j) => Some((from, j))
      case None => Find(members, tag, from + 1)
  }

  function FindIn(m: Member, tag: Word, from: nat): (r: Option<nat>)
    ensures r.Some? ==> HasTag(m, r.value, tag)
    ensures r.None? ==> forall j :: from <= j ==> !HasTag(m, j, tag)
    decreases if m.Union? && from <= |m.fields| then |m.fields| - from else 0
  {
    match m
    case Plain(f, _, _) => if f.tag == tag && from == 0 then Some(0) else None
    case Union(fields) => if from >= |fields| then None else if fields[from].tag == tag then Some(from)
          else FindIn(m, tag, from + 1)
  }

  /** There is only one field with a tag. */
  lemma FindBack(l: LType, i: nat, j: nat, tag: Word)
    requires l.Submessage? && TypeOk(l) && i < |l.members| && HasTag(l.members[i], j, tag)
    ensures Find(l.members, tag, 0) == Some((i, j))
  {
    var r := Find(l.members, tag, 0);
    assert r.Some? ==> HasTag(l.members[r.value.0], r.value.1, tag);
  }

  /** pb_dec_bytes, pb_dec_string, pb_dec_fixed_length_bytes and the numbers. */
  function LeafAt(l: LType, size: nat, was: Val, data: Bytes, p: nat, limit: nat): (r: Option<(Val, nat)>)
    requires !l.Submessage? && ValOk(l, size, was) && p <= limit <= |data|
    ensures r.Some? ==> p < r.value.1 <= limit && ValOk(l, size, r.value.0)
  {
    if Packable(l) then
      match NumAt(l, size, data, p, limit) case None => None case Some(n) => Some((Num(n.0), n.1))
    else
      match Varint32At(data, p, limit)
      case None => None
      case Some(n) =>
        if l.FixedBytes? && n.0 == 0 then Some((Raw(Zeros(size)), n.1))
        else if l.BytesArray? && n.0 + BYTES_OFFSET > size then None
        else if l.CString? && n.0 + 1 > size then None
        else if l.FixedBytes? && n.0 != size then None
        else match RawAt(data, n.1, limit, n.0)
          case None => None
          case Some(r) => Some((Raw(if l.CString? then r.0 + [0] + was.bs[n.0 + 1..] else r.0), r.1))
  }

  /** The decoder of an item; `again` starts a submessage from its defaults. */
  function ValAt(f: Field, was: Val, again: bool, data: Bytes, p: nat, limit: nat): (r: Option<(Val, nat)>)
    requires FieldOk(f) && ValOk(f.ltype, f.dataSize, was) && p <= limit <= |data|
    ensures r.Some? ==> p < r.value.1 <= limit && ValOk(f.ltype, f.dataSize, r.value.0)
    decreases f.ltype, 5, limit - p
  {
    if !f.ltype.Submessage? then LeafAt(f.ltype, f.dataSize, was, data, p, limit)
    else
      match SubstreamAt(data, p, limit)
      case None => None
      case Some(sub) =>
        match MessageAt(f.ltype, if again then Defaults(f.ltype, was.slots) else was.slots, data, sub.0, sub.1)
        case None => None
        case Some(slots) => Some((Struct(slots), sub.1))
  }

  /** A packed array: items up to the end of the substream or of the array. */
  function PackedAt(f: Field, items: seq<Val>, count: nat, data: Bytes, p: nat, end: nat): (r: Option<(seq<Val>, nat)>)
    requires Packable(f.ltype) && p <= end <= |data| && forall k :: 0 <= k < |items| ==>
               ValOk(f.ltype, f.dataSize, items[k])
    ensures r.Some? ==>
              |r.value.0| == |items| && count <= r.value.1
              && (if count <= |items| then r.value.1 <= |items| else r.value.1 == count)
              && forall k :: 0 <= k < |items| ==> ValOk(f.ltype, f.dataSize, r.value.0[k])
    decreases end - p
  {
    if p == end then Some((items, count))
    else if count >= |items| then None
    else
      match NumAt(f.ltype, f.dataSize, data, p, end)
      case None => None
      case Some(n) => PackedAt(f, items[count := Num(n.0)], count + 1, data, n.1, end)
  }

  /** Items of a repeated field: all of a packed array, or the next one. */
  function ItemsAt(f: Field, items: seq<Val>, count: nat, wire: nat, data: Bytes, p: nat,
                   limit: nat): (r: Option<(seq<Val>, nat, nat)>)
    requires FieldOk(f) && p <= limit <= |data| && forall k :: 0 <= k < |items| ==> ValOk(f.ltype, f.dataSize, items[k])
    ensures r.Some? ==>
              p < r.value.2 <= limit && |r.value.0| == |items|
              && (if count <= |items| then r.value.1 <= |items| else r.value.1 == count)
              && forall k :: 0 <= k < |items| ==> ValOk(f.ltype, f.dataSize, r.value.0[k])
    decreases f.ltype, 6, limit - p
  {
    if wire == 2 && Packable(f.ltype) then
      match SubstreamAt(data, p, limit)
      case None => None
      case Some(sub) =>
        match PackedAt(f, items, count, data, sub.0, sub.1) case None => None case Some(r) => Some((r.0, r.1, sub.1))
    else if count >= |items| then None
    else match ValAt(f, items[count], true, data, p, limit)
      case None => None
      case Some(v) => Some((items[count := v.0], count + 1, v.1))
  }

  /** decode_static_field for field j of member i. */
  function MemberAt(l: LType, st: State, i: nat, j: nat, wire: nat, data: Bytes, p: nat,
                    limit: nat): (r: Option<(State, nat)>)
    requires l.Submessage? && TypeOk(l) && StateOk(l, st) && p <= limit <= |data|
    requires i < |l.members| && HasField(l.members[i], j)
    ensures r.Some? ==> p < r.value.1 <= limit && StateOk(l, r.value.0)
    decreases l, 2, limit - p
  {
    assert MemberOk(l, i) && SlotOk(l, i, st.slots[i]);
    var s := st.slots[i];
    match l.members[i]
    case Plain(f, rule, arraySize) =>
      (if rule.Required? || rule.Singular? then
        var seen := if rule.Required? && RequiredBefore(l.members, i) < MAX_REQUIRED
            then st.seen + {RequiredBefore(l.members, i)} else st.seen;
        (match ValAt(f, s.v, false, data, p, limit)
         case None => None
         case Some(v) => Some((st.(slots := st.slots[i := One(v.0)], seen := seen), v.1)))
      else if rule.Optional? then
        (match ValAt(f, s.o, false, data, p, limit)
         case None => None
         case Some(v) => Some((st.(slots := st.slots[i := Opt(true, v.0)]), v.1)))
      else if rule.Repeated? then
        (match ItemsAt(f, s.items, s.count, wire, data, p, limit)
         case None => None
         case Some(r) => Some((st.(slots := st.slots[i := Many(r.1, r.0)]), r.2)))
      else if st.fixedField.Some? && st.fixedField.value != i
          && st.fixedSize != l.members[st.fixedField.value].arraySize then None
      else
        (match ItemsAt(f, s.items, if st.fixedField == Some(i) then st.fixedSize else 0, wire, data, p, limit)
         case None => None
         case Some(r) => Some((st.(slots := st.slots[i := Many(0, r.0)], fixedField := Some(i), fixedSize := r.1),
                               r.2))))
    case Union(fields) =>
      var f := fields[j];
      assert forall k :: 0 <= k < |fields| && fields[k].tag == f.tag ==>
               HasTag(l.members[i], k, f.tag) && HasTag(l.members[i], j, f.tag);
      var was := if s.which == f.tag then s.u
                 else if f.ltype.Submessage? then Struct(Defaults(f.ltype, ZeroVal(f.ltype, f.dataSize).slots))
                 else ZeroVal(f.ltype, f.dataSize);
      match ValAt(f, was, false, data, p, limit)
      case None => None
      case Some(v) => Some((st.(slots := st.slots[i := Which(f.tag, v.0)]), v.1))
  }

  /** The loop of pb_decode_noinit; unknown fields are skipped. */
  function LoopAt(l: LType, st: State, data: Bytes, p: nat, limit: nat): (r: Option<State>)
    requires l.Submessage? && TypeOk(l) && StateOk(l, st) && p <= limit <= |data|
    ensures r.Some? ==> StateOk(l, r.value)
    decreases l, 3, limit - p
  {
    if p == limit then Some(st)
    else match TagAt(data, p, limit)
      case NoTag => None
      case End => Some(st)
      case Tag(wire, tag, q) =>
        match Find(l.members, tag, 0)
        case None =>
          (match SkipField(wire, data, q, limit) case None => None case Some(r) => LoopAt(l, st, data, r, limit))
        case Some(ij) =>
          match MemberAt(l, st, ij.0, ij.1, wire, data, q, limit)
          case None => None
          case Some(r) => LoopAt(l, r.0, data, r.1, limit)
  }

  /** The checks at the end: the last fixed count field is complete, and the required fields
      that are tracked were there. */
  predicate Complete(l: LType, st: State)
    requires l.Submessage? && StateOk(l, st)
  {
    && (st.fixedField.Some? ==> st.fixedSize == l.members[st.fixedField.value].arraySize)
    && forall k :: 0 <= k < RequiredBefore(l.members, |l.members|) && k < MAX_REQUIRED ==> k in st.seen
  }

  /** pb_decode_noinit. */
  function MessageAt(l: LType, slots: seq<Slot>, data: Bytes, p: nat, limit: nat): (r: Option<seq<Slot>>)
    requires l.Submessage? && TypeOk(l) && SlotsOk(l, slots) && p <= limit <= |data|
    ensures r.Some? ==> SlotsOk(l, r.value)
    decreases l, 4, limit - p
  {
    match LoopAt(l, State(slots, None, 0, {}), data, p, limit)
    case None => None
    case Some(st) => if Complete(l, st) then Some(st.slots) else None
  }

  /** pb_decode. */
  function Decoded(l: LType, was: Val, data: Bytes): (r: Option<Val>)
    requires l.Submessage? && TypeOk(l) && ValOk(l, 0, was)
    ensures r.Some? ==> ValOk(l, 0, r.value)
  {
    match MessageAt(l, Defaults(l, was.slots), data, 0, |data|)
        case None => None
        case Some(slots) => Some(Struct(slots))
  }
}
