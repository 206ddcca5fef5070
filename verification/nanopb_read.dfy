/** The decoder as it runs (pb_decode.c, pb_common.c): a stream that is used up, substreams
    of it, and an iterator that goes round the fields. */
module NanopbRead {
  import opened InternalKeys
  import opened Coding
  import opened NanopbMessages
  import opened NanopbDecode

  /** pb_istream_t over a buffer. */
  class IStream {
    const data: Bytes
    var pos: nat
    var bytesLeft: nat

    ghost predicate Valid()
      reads this
    { pos + bytesLeft <= |data| }

    function Limit(): nat
      reads this
    { pos + bytesLeft }

    constructor (data: Bytes, pos: nat, bytesLeft: nat)
      requires pos + bytesLeft <= |data|
      ensures Valid() && this.data == data && this.pos == pos && this.bytesLeft == bytesLeft
    {
      this.data, this.pos, this.bytesLeft := data, pos, bytesLeft;
    }

    /** pb_read; skipping reads into nothing. */
    method Read(count: nat) returns (r: Option<Bytes>)
      requires Valid()
      modifies this`pos, this`bytesLeft
      ensures Valid() && Limit() == old(Limit())
      ensures match RawAt(data, old(pos), Limit(), count)
              case None => r == None && pos == old(pos)
              case Some(x) => r == Some(x.0) && pos == x.1
    {
      if bytesLeft < count { return None; }
      r := Some(data[pos..pos + count]);
      pos, bytesLeft := pos + count, bytesLeft - count;
    }

    /** pb_readbyte. */
    method ReadByte() returns (r: Option<Byte>)
      requires Valid()
      modifies this`pos, this`bytesLeft
      ensures Valid() && Limit() == old(Limit())
      ensures if old(bytesLeft) == 0 then r == None && pos == old(pos)
              else r == Some(data[old(pos)]) && pos == old(pos) + 1
    {
      if bytesLeft == 0 { return None; }
      r := Some(data[pos]);
      pos, bytesLeft := pos + 1, bytesLeft - 1;
    }

    /** pb_decode_varint. */
    method DecodeVarint() returns (r: Option<Word64>)
      requires Valid()
      modifies this`pos, this`bytesLeft
      ensures Valid() && Limit() == old(Limit()) && old(pos) <= pos
      ensures match Varint64At(data, old(pos), Limit())
              case None => r == None
              case Some(x) => r == Some(x.0) && pos == x.1
    {
      hide Low64;
      hide Coding.DecodeVarint;
      hide Behind;
      hide Shifted;
      ghost var start, limit := pos, Limit();
      WholeVarint(data, start, limit, 10);
      var result: Word64, bitpos := 0, 0;
      ghost var sum: nat, k := 0, 0;
      var m: nat := 1;  // 1 << bitpos
      while true
        invariant Valid() && Limit() == limit && 0 <= k <= 10 && pos == start + k && bitpos == 7 * k
                  && result == Low64(sum)
        invariant Coding.DecodeVarint(data, start, limit, 10)
                  == Behind(sum, m, Coding.DecodeVarint(data, pos, limit, 10 - k))
        decreases 10 - k
      {
        if bitpos >= 64 {
          NoByte(data, pos, limit, 10 - k, sum, m);
          return None;
        }
        if bytesLeft == 0 { NoByte(data, pos, limit, 10 - k, sum, m); }
        else { OneByte(data, pos, limit, 10 - k, sum, m); }
        var byte := ReadByte();
        if byte == None { return None; }
        var digit: nat := if byte.value < 128 then byte.value else byte.value - 128;
        var part := Shifted(digit, m);
        AddLow64(sum, part);
        result, sum := Low64(result + part), sum + part;
        bitpos, k, m := bitpos + 7, k + 1, 128 * m;
        if byte.value < 128 { return Some(result); }
      }
    }

    /** pb_decode_varint32. */
    method DecodeVarint32() returns (r: Option<Word>)
      requires Valid()
      modifies this`pos, this`bytesLeft
      ensures Valid() && Limit() == old(Limit()) && old(pos) <= pos
      ensures match Varint32At(data, old(pos), Limit())
              case None => r == None
              case Some(x) => r == Some(x.0) && pos == x.1
    {
      hide Shifted;
      hide Low32;
      var first := ReadByte();
      if first == None { return None; }
      if first.value < 128 { return Some(first.value); }
      var bitpos, m: nat, result: Word := 7, 128, first.value - 128;
      while true
        invariant Valid() && Limit() == old(Limit()) && old(pos) < pos && bitpos >= 7
        invariant Varint32At(data, old(pos), Limit()) == Varint32Rest(data, pos, Limit(), bitpos, m, result)
        decreases bytesLeft
      {
        var byte := ReadByte();
        if byte == None { return None; }
        if bitpos >= 32 {
          var signExtension := if bitpos < 63 then 0xFF else 0x01;
          if byte.value % 128 != 0 && (result < 0x8000_0000 || byte.value != signExtension) { return None; }
        } else {
          result := Low32(result + Shifted(byte.value % 128, m));
        }
        bitpos, m := bitpos + 7, 128 * m;
        if byte.value < 128 {
          if bitpos == 35 && byte.value >= 16 { return None; }
          return Some(result);
        }
      }
    }

    /** pb_decode_tag. */
    method DecodeTag() returns (t: TagRead)
      requires Valid()
      modifies this`pos, this`bytesLeft
      ensures Valid() && Limit() == old(Limit()) && old(pos) <= pos && t == TagAt(data, old(pos), Limit())
              && (t.Tag? ==> pos == t.next)
    {
      var temp := DecodeVarint32();
      if temp == None { return NoTag; }
      if temp.value == 0 { return End; }
      t := Tag(temp.value % 8, temp.value / 8, pos);
    }

    /** pb_skip_field. */
    method Skip(wire: nat) returns (ok: bool)
      requires Valid()
      modifies this`pos, this`bytesLeft
      ensures Valid() && Limit() == old(Limit())
      ensures match SkipField(wire, data, old(pos), Limit()) case None => !ok case Some(p) => ok && pos == p
    {
      if wire == 0 {
        ok := SkipVarintBytes();
      } else if wire == 1 {
        var r := Read(8);
        ok := r.Some?;
      } else if wire == 5 {
        var r := Read(4);
        ok := r.Some?;
      } else if wire == 2 {
        var length := DecodeVarint32();
        if length == None { return false; }
        var r := Read(length.value);
        ok := r.Some?;
      } else {
        ok := false;
      }
    }

    method SkipVarintBytes() returns (ok: bool)
      requires Valid()
      modifies this`pos, this`bytesLeft
      ensures Valid() && Limit() == old(Limit())
      ensures match SkipVarint(data, old(pos), Limit()) case None => !ok case Some(p) => ok && pos == p
    {
      while true
        invariant Valid() && Limit() == old(Limit())
                  && SkipVarint(data, old(pos), Limit()) == SkipVarint(data, pos, Limit())
        decreases bytesLeft
      {
        var byte := ReadByte();
        if byte == None { return false; }
        if byte.value < 128 { return true; }
      }
    }

    /** pb_make_string_substream: the bytes are taken from the parent at once. */
    method MakeSubstream() returns (sub: IStream?)
      requires Valid()
      modifies this`pos, this`bytesLeft
      ensures Valid() && Limit() <= old(Limit())
      ensures match SubstreamAt(data, old(pos), old(Limit()))
              case None => sub == null
              case Some(x) => sub != null && fresh(sub) && sub.Valid() && sub.data == data && sub.pos == x.0
                              && sub.Limit() == x.1
                              && pos + bytesLeft + sub.bytesLeft == old(Limit()) && pos == sub.pos
    {
      var size := DecodeVarint32();
      if size == None { return null; }
      if bytesLeft < size.value { return null; }
      sub := new IStream(data, pos, size.value);
      bytesLeft := bytesLeft - size.value;
    }

    /** pb_close_string_substream: what is left of it is skipped. */
    method CloseSubstream(sub: IStream)
      requires sub != this && sub.Valid() && sub.data == data && sub.Limit() + bytesLeft <= |data|
      modifies this`pos, sub`pos, sub`bytesLeft
      ensures Valid() && pos == old(sub.Limit())
    {
      if sub.bytesLeft > 0 { var _ := sub.Read(sub.bytesLeft); }
      pos := sub.pos;
    }
  }

  /** pb_field_iter_t: a place among the fields, and the number of required fields before it. */
  class FieldIter {
    const members: seq<Member>
    var i: nat
    var j: nat
    var requiredFieldIndex: nat

    ghost predicate Valid()
      reads this
    {
      && (forall m :: m in members && m.Union? ==> m.fields != [])
      && (members != [] ==>
           i < |members| && HasField(members[i], j)
           && requiredFieldIndex == RequiredBefore(members, i))
    }

    /** pb_field_iter_begin. */
    constructor (members: seq<Member>)
      requires forall m :: m in members && m.Union? ==> m.fields != []
      ensures Valid() && this.members == members && i == 0 && j == 0
    {
      this.members, i, j, requiredFieldIndex := members, 0, 0, 0;
    }

    predicate IsLast()
      reads this
      requires i < |members|
    { i + 1 == |members| && (members[i].Union? ==> j + 1 == |members[i].fields|) }

    /** pb_field_iter_next: round to the first field after the last one. */
    method Next() returns (more: bool)
      requires Valid()
      modifies this`i, this`j, this`requiredFieldIndex
      ensures Valid()
      ensures members == [] ==> !more && i == old(i) && j == old(j)
      ensures members != [] ==> more == !old(IsLast())
      ensures members != [] && !more ==> i == 0 && j == 0
      ensures more ==> if old(members[i].Union? && j + 1 < |members[i].fields|) then i == old(i) && j == old(j) + 1
                       else i == old(i) + 1 && j == 0
    {
      if members == [] { return false; }
      if members[i].Union? && j + 1 < |members[i].fields| {
        j := j + 1;
        return true;
      }
      if i + 1 == |members| {
        i, j, requiredFieldIndex := 0, 0, 0;
        return false;
      }
      if members[i].Plain? && members[i].rule.Required? { requiredFieldIndex := requiredFieldIndex + 1; }
      i, j := i + 1, 0;
      return true;
    }

    /** The fields from place (a, b) on and before place (c, d) do not have the tag. */
    ghost predicate NotBetween(tag: Word, a: nat, b: nat, c: nat, d: nat) {
      forall x, y :: 0 <= x < |members| && HasTag(members[x], y, tag) ==> Earlier(x, y, a, b) || !Earlier(x, y, c, d)
    }

    /** Going round from (a, b), (i, j) is the first field with the tag. */
    ghost predicate FirstFrom(tag: Word, a: nat, b: nat)
      reads this
    {
      && i < |members| && HasTag(members[i], j, tag)
      && (if Earlier(i, j, a, b) then NotBetween(tag, a, b, |members|, 0) && NotBetween(tag, 0, 0, i, j)
          else NotBetween(tag, a, b, i, j))
    }

    /** pb_field_iter_find: from where it stands once round. */
    method Find(tag: Word) returns (found: bool)
      requires Valid()
      modifies this`i, this`j, this`requiredFieldIndex
      ensures Valid() && found == NanopbDecode.Find(members, tag, 0).Some?
      ensures found ==> FirstFrom(tag, old(i), old(j))
      ensures found && UniqueTags(members) ==> NanopbDecode.Find(members, tag, 0) == Some((i, j))
    {
      if members == [] { return false; }
      var startI, startJ, wrapped := i, j, false;
      while true
        invariant Valid() && members != []
        invariant !wrapped ==> NotBetween(tag, startI, startJ, i, j) && !Earlier(i, j, startI, startJ)
        invariant wrapped ==>
                    NotBetween(tag, startI, startJ, |members|, 0) && NotBetween(tag, 0, 0, i, j)
                    && Earlier(i, j, startI, startJ)
        decreases !wrapped, |members| - i, if members[i].Union? then |members[i].fields| - j else 0
      {
        if HasTag(members[i], j, tag) {
          FoundIt(tag);
          return true;
        }
        ghost var wasI, wasJ := i, j;
        var more := Next();
        wrapped := wrapped || !more;
        if i == startI && j == startJ {
          NotThere(tag, startI, startJ);
          return false;
        }
      }
    }

    lemma FoundIt(tag: Word)
      requires i < |members| && HasTag(members[i], j, tag)
      ensures NanopbDecode.Find(members, tag, 0).Some?
      ensures UniqueTags(members) ==> NanopbDecode.Find(members, tag, 0) == Some((i, j))
    {
    }

    lemma NotThere(tag: Word, a: nat, b: nat)
      requires NotBetween(tag, a, b, |members|, 0) && NotBetween(tag, 0, 0, a, b)
      ensures NanopbDecode.Find(members, tag, 0) == None
    {
    }
  }

  /** Place (a, b) comes before place (c, d). */
  predicate Earlier(a: nat, b: nat, c: nat, d: nat) { a < c || (a == c && b < d) }

  // ---- items ----

  /** pb_dec_bool, pb_dec_varint, pb_dec_uvarint, pb_dec_svarint, pb_dec_fixed32, pb_dec_fixed64. */
  method DecodeNum(stream: IStream, l: LType, size: nat) returns (r: Option<int>)
    requires stream.Valid() && Packable(l)
    modifies stream`pos, stream`bytesLeft
    ensures stream.Valid() && stream.Limit() == old(stream.Limit())
    ensures match NumAt(l, size, stream.data, old(stream.pos), stream.Limit())
            case None => r == None
            case Some(x) => r == Some(x.0) && stream.pos == x.1
  {
    hide Varint32At;
    hide Varint64At;
    hide RawAt;
    hide Low32;
    if l.Bool? {
      var v := stream.DecodeVarint32();
      return if v == None then None else Some(if v.value != 0 then 1 else 0);
    }
    if l.Fixed4? {
      var bs := stream.Read(4);
      return if bs == None then None else Some(DecodeFixed32(bs.value));
    }
    if l.Fixed8? {
      var bs := stream.Read(8);
      return if bs == None then None else Some(DecodeFixed64(bs.value));
    }
    var v := stream.DecodeVarint();
    if v == None { return None; }
    if l.SignedVarint? {
      // Fields of up to 32 bits are cut to 32 bits first.
      var svalue := if size == 8 then Signed64(v.value) else Signed32(Low32(v.value));
      r := if IntSize(size) && -HalfRange(size) <= svalue < HalfRange(size) then Some(svalue) else None;
    } else if l.ZigZagVarint? {
      var svalue := if v.value % 2 == 1 then -(v.value / 2) - 1 else v.value / 2;
      r := if IntSize(size) && -HalfRange(size) <= svalue < HalfRange(size) then Some(svalue) else None;
    } else {
      r := if IntSize(size) && v.value < 2 * HalfRange(size) then Some(v.value) else None;
    }
  }

  /** pb_dec_bytes, pb_dec_string, pb_dec_fixed_length_bytes. */
  method DecodeLeaf(stream: IStream, l: LType, size: nat, was: Val) returns (r: Option<Val>)
    requires stream.Valid() && !l.Submessage? && ValOk(l, size, was)
    modifies stream`pos, stream`bytesLeft
    ensures stream.Valid() && stream.Limit() == old(stream.Limit())
    ensures match LeafAt(l, size, was, stream.data, old(stream.pos), stream.Limit())
            case None => r == None
            case Some(x) => r == Some(x.0) && stream.pos == x.1
  {
    hide Varint32At;
    hide NumAt;
    hide RawAt;
    if Packable(l) {
      var n := DecodeNum(stream, l, size);
      return if n == None then None else Some(Num(n.value));
    }
    var n := stream.DecodeVarint32();
    if n == None { return None; }
    if l.BytesArray? {
      if n.value + BYTES_OFFSET > size { return None; }
    } else if l.CString? {
      if n.value + 1 > size { return None; }
    } else {
      if n.value == 0 { return Some(Raw(Zeros(size))); }
      if n.value != size { return None; }
    }
    var bs := stream.Read(n.value);
    if bs == None { return None; }
    r := Some(Raw(if l.CString? then bs.value + [0] + was.bs[n.value + 1..] else bs.value));
  }

  /** PB_DECODERS: submessages of arrays start from their defaults. */
  method DecodeVal(stream: IStream, f: Field, was: Val, again: bool) returns (r: Option<Val>)
    requires stream.Valid() && FieldOk(f) && ValOk(f.ltype, f.dataSize, was)
    modifies stream`pos, stream`bytesLeft
    ensures stream.Valid() && stream.Limit() <= old(stream.Limit())
            && (r.Some? ==> stream.Limit() == old(stream.Limit()))
    ensures match ValAt(f, was, again, stream.data, old(stream.pos), old(stream.Limit()))
            case None => r == None
            case Some(x) => r == Some(x.0) && stream.pos == x.1
    decreases f.ltype, 5
  {
    if !f.ltype.Submessage? {
      r := DecodeLeaf(stream, f.ltype, f.dataSize, was);
      return;
    }
    var substream := stream.MakeSubstream();
    if substream == null { return None; }
    var slots := DecodeNoinit(substream, f.ltype, if again then Defaults(f.ltype, was.slots) else was.slots);
    stream.CloseSubstream(substream);
    r := if slots == None then None else Some(Struct(slots.value));
  }

  /** The items of a packed array, in its substream. */
  method DecodePacked(substream: IStream, f: Field, was: seq<Val>, from: nat) returns (r: Option<(seq<Val>, nat)>)
    requires substream.Valid() && Packable(f.ltype) && forall k :: 0 <= k < |was| ==> ValOk(f.ltype, f.dataSize, was[k])
    modifies substream`pos, substream`bytesLeft
    ensures substream.Valid() && substream.Limit() == old(substream.Limit())
    ensures r == PackedAt(f, was, from, substream.data, old(substream.pos), substream.Limit())
  {
    hide NumAt;
    var items, count: nat := was, from;
    while substream.bytesLeft > 0 && count < |items|
      invariant substream.Valid() && substream.Limit() == old(substream.Limit()) && |items| == |was|
      invariant forall k :: 0 <= k < |items| ==> ValOk(f.ltype, f.dataSize, items[k])
      invariant PackedAt(f, was, from, substream.data, old(substream.pos), substream.Limit())
             == PackedAt(f, items, count, substream.data, substream.pos, substream.Limit())
      decreases substream.bytesLeft
    {
      var n := DecodeNum(substream, f.ltype, f.dataSize);
      if n == None { return None; }
      items, count := items[count := Num(n.value)], count + 1;
    }
    if substream.bytesLeft != 0 { return None; }
    r := Some((items, count));
  }

  /** decode_static_field on a repeated field. */
  method DecodeItems(stream: IStream, f: Field, items: seq<Val>, count: nat, wire: nat)
    returns (r: Option<(seq<Val>, nat)>)
    requires stream.Valid() && FieldOk(f) && forall k :: 0 <= k < |items| ==> ValOk(f.ltype, f.dataSize, items[k])
    modifies stream`pos, stream`bytesLeft
    ensures stream.Valid() && stream.Limit() <= old(stream.Limit())
            && (r.Some? ==> stream.Limit() == old(stream.Limit()))
    ensures match ItemsAt(f, items, count, wire, stream.data, old(stream.pos), old(stream.Limit()))
            case None => r == None
            case Some(x) => r == Some((x.0, x.1)) && stream.pos == x.2
    decreases f.ltype, 6
  {
    hide SubstreamAt;
    hide PackedAt;
    hide ValAt;
    if wire == 2 && Packable(f.ltype) {
      var substream := stream.MakeSubstream();
      if substream == null { return None; }
      r := DecodePacked(substream, f, items, count);
      if r == None { return None; }
      stream.CloseSubstream(substream);
      return;
    }
    if count >= |items| { return None; }
    var v := DecodeVal(stream, f, items[count], true);
    r := if v == None then None else Some((items[count := v.value], count + 1));
  }

  /** decode_static_field on field j of member i. */
  method DecodeStaticField(stream: IStream, l: LType, st: State, i: nat, j: nat, wire: nat) returns (r: Option<State>)
    requires stream.Valid() && l.Submessage? && TypeOk(l) && StateOk(l, st) && i < |l.members|
             && HasField(l.members[i], j)
    modifies stream`pos, stream`bytesLeft
    ensures stream.Valid() && stream.Limit() <= old(stream.Limit())
            && (r.Some? ==> stream.Limit() == old(stream.Limit()))
    ensures match MemberAt(l, st, i, j, wire, stream.data, old(stream.pos), old(stream.Limit()))
            case None => r == None case Some(x) => r == Some(x.0) && stream.pos == x.1
    ensures r.Some? ==> StateOk(l, r.value)
    decreases l, 3
  {
    hide ValAt;
    hide ItemsAt;
    hide Defaults;
    hide ZeroVal;
    assert MemberOk(l, i) && SlotOk(l, i, st.slots[i]);
    var s := st.slots[i];
    match l.members[i]
    case Plain(f, rule, arraySize) =>
      if rule.Required? || rule.Singular? {
        var v := DecodeVal(stream, f, s.v, false);
        if v == None { return None; }
        var index := RequiredBefore(l.members, i);
        r := Some(st.(slots := st.slots[i := One(v.value)],
                      seen := if rule.Required? && index < MAX_REQUIRED then st.seen + {index} else st.seen));
      } else if rule.Optional? {
        var v := DecodeVal(stream, f, s.o, false);
        if v == None { return None; }
        r := Some(st.(slots := st.slots[i := Opt(true, v.value)]));
      } else if rule.Repeated? {
        var items := DecodeItems(stream, f, s.items, s.count, wire);
        if items == None { return None; }
        r := Some(st.(slots := st.slots[i := Many(items.value.1, items.value.0)]));
      } else {
        var count := 0;
        if st.fixedField == Some(i) { count := st.fixedSize; }
        else if st.fixedField.Some? && st.fixedSize != l.members[st.fixedField.value].arraySize { return None; }
        var items := DecodeItems(stream, f, s.items, count, wire);
        if items == None { return None; }
        r := Some(st.(slots := st.slots[i := Many(0, items.value.0)], fixedField := Some(i),
                      fixedSize := items.value.1));
      }
    case Union(fields) =>
      var f := fields[j];
      var was := s.u;
      if s.which != f.tag {
        was := ZeroVal(f.ltype, f.dataSize);
        if f.ltype.Submessage? { was := Struct(Defaults(f.ltype, was.slots)); }
      }
      var v := DecodeVal(stream, f, was, false);
      if v == None { return None; }
      r := Some(st.(slots := st.slots[i := Which(f.tag, v.value)]));
  }

  /** pb_decode_noinit. */
  method DecodeNoinit(stream: IStream, l: LType, slots: seq<Slot>) returns (r: Option<seq<Slot>>)
    requires stream.Valid() && l.Submessage? && TypeOk(l) && SlotsOk(l, slots)
    modifies stream`pos, stream`bytesLeft
    ensures stream.Valid() && stream.Limit() <= old(stream.Limit())
            && (r.Some? ==> stream.Limit() == old(stream.Limit()))
    ensures r == MessageAt(l, slots, stream.data, old(stream.pos), old(stream.Limit()))
    decreases l, 4
  {
    hide MemberAt;
    hide TagAt;
    hide SkipField;
    UnionsNotEmpty(l);
    var st, searching := State(slots, None, 0, {}), true;
    var iter := new FieldIter(l.members);
    while stream.bytesLeft > 0 && searching
      invariant stream.Valid() && stream.Limit() == old(stream.Limit()) && StateOk(l, st) && iter.Valid()
                && iter.members == l.members && fresh(iter)
      invariant LoopAt(l, State(slots, None, 0, {}), stream.data, old(stream.pos), stream.Limit())
             == if searching then LoopAt(l, st, stream.data, stream.pos, stream.Limit()) else Some(st)
      decreases stream.bytesLeft, searching
    {
      var t := stream.DecodeTag();
      if t.NoTag? { return None; }
      if t.End? {
        searching := false;
      } else {
        var found := iter.Find(t.tag);
        if !found {
          var ok := stream.Skip(t.wire);
          if !ok { return None; }
        } else {
          var next := DecodeStaticField(stream, l, st, iter.i, iter.j, t.wire);
          if next == None { return None; }
          st := next.value;
        }
      }
    }
    if st.fixedField.Some? && st.fixedSize != l.members[st.fixedField.value].arraySize { return None; }
    var all := AllSeen(l.members, st.seen);
    r := if all then Some(st.slots) else None;
  }

  /** The required fields, as far as they are tracked. */
  method AllSeen(members: seq<Member>, seen: set<nat>) returns (all: bool)
    ensures all <==> forall k :: 0 <= k < RequiredBefore(members, |members|) && k < MAX_REQUIRED ==> k in seen
  {
    var count := RequiredBefore(members, |members|);
    if count > MAX_REQUIRED { count := MAX_REQUIRED; }
    for k := 0 to count
      invariant forall m :: 0 <= m < k ==> m in seen
    {
      if k !in seen { return false; }
    }
    all := true;
  }

  /** pb_decode. */
  method Decode(l: LType, was: Val, buf: Bytes) returns (r: Option<Val>)
    requires l.Submessage? && TypeOk(l) && ValOk(l, 0, was)
    ensures r == Decoded(l, was, buf)
  {
    var stream := new IStream(buf, 0, |buf|);
    var slots := DecodeNoinit(stream, l, Defaults(l, was.slots));
    r := if slots == None then None else Some(Struct(slots.value));
  }

  lemma UnionsNotEmpty(l: LType)
    requires l.Submessage? && TypeOk(l)
    ensures forall m :: m in l.members && m.Union? ==> m.fields != []
    ensures UniqueTags(l.members)
  {
    forall m | m in l.members && m.Union? ensures m.fields != [] {
      var i :| 0 <= i < |l.members| && l.members[i] == m;
      assert MemberOk(l, i);
    }
  }
}
