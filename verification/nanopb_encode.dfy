/** pb_encode (pb_encode.c): one recursive pass that either counts or writes, run twice for
    every submessage. */
module NanopbEncode {
  import opened InternalKeys
  import opened Coding
  import opened NanopbMessages

  /** What a pass has done: exactly the bytes, or only their number; it fails when the
      message cannot be encoded or the stream is full. */
  ghost predicate Wrote(writes: bool, maxSize: nat, n0: nat, out0: Bytes, n1: nat, out1: Bytes, bs: Option<Bytes>,
                        ok: bool) {
    && (ok <==> bs.Some? && (writes ==> n0 + |bs.value| <= maxSize))
    && (ok ==> n1 == n0 + |bs.value| && out1 == out0 + (if writes then bs.value else []))
    && (writes ==> n1 <= maxSize) && out0 <= out1
  }

  /** One pass after another. */
  lemma WroteBoth(writes: bool, maxSize: nat, n0: nat, out0: Bytes, n1: nat, out1: Bytes, n2: nat, out2: Bytes,
                  a: Option<Bytes>, b: Option<Bytes>, ok: bool)
    requires Wrote(writes, maxSize, n0, out0, n1, out1, a, true) && Wrote(writes, maxSize, n1, out1, n2, out2, b, ok)
    ensures Wrote(writes, maxSize, n0, out0, n2, out2, Join(a, b), ok)
  {
  }

  lemma WroteFits(writes: bool, maxSize: nat, n0: nat, out0: Bytes, n1: nat, out1: Bytes, bs: Option<Bytes>, ok: bool)
    requires Wrote(writes, maxSize, n0, out0, n1, out1, bs, ok)
    ensures writes ==> n1 <= maxSize
  {
  }

  /** A failure is final. */
  lemma WroteNot(writes: bool, maxSize: nat, n0: nat, out0: Bytes, n1: nat, out1: Bytes, a: Option<Bytes>,
                 b: Option<Bytes>)
    requires Wrote(writes, maxSize, n0, out0, n1, out1, a, false)
    ensures Wrote(writes, maxSize, n0, out0, n1, out1, Join(a, b), false)
  {
  }

  lemma {:induction false} SlotsFailed(l: LType, slots: seq<Slot>, i: nat, n: nat, writes: bool, maxSize: nat,
                                       n0: nat, out0: Bytes, n1: nat, out1: Bytes)
    requires l.Submessage? && SlotsOk(l, slots) && i <= n <= |slots|
    requires Wrote(writes, maxSize, n0, out0, n1, out1, SlotsBytes(l, slots, i), false)
    ensures Wrote(writes, maxSize, n0, out0, n1, out1, SlotsBytes(l, slots, n), false)
    decreases n
  {
    if i < n {
      SlotsFailed(l, slots, i, n - 1, writes, maxSize, n0, out0, n1, out1);
      WroteNot(writes, maxSize, n0, out0, n1, out1, SlotsBytes(l, slots, n - 1), SlotBytes(l, n - 1, slots[n - 1]));
    }
  }

  lemma {:induction false} ItemsFailed(f: Field, items: seq<Val>, i: nat, n: nat, tagged: bool, writes: bool,
                                       maxSize: nat, n0: nat, out0: Bytes, n1: nat, out1: Bytes)
    requires i <= n <= |items| && forall k :: 0 <= k < |items| ==> ValOk(f.ltype, f.dataSize, items[k])
    requires Wrote(writes, maxSize, n0, out0, n1, out1, ItemsBytes(f, items, i, tagged), false)
    ensures Wrote(writes, maxSize, n0, out0, n1, out1, ItemsBytes(f, items, n, tagged), false)
    decreases n
  {
    if i < n {
      ItemsFailed(f, items, i, n - 1, tagged, writes, maxSize, n0, out0, n1, out1);
      WroteNot(writes, maxSize, n0, out0, n1, out1, ItemsBytes(f, items, n - 1, tagged),
               if tagged then TaggedBytes(f, items[n - 1]) else ValBytes(f.ltype, f.dataSize, items[n - 1]));
    }
  }

  lemma {:induction false} UnionFailed(l: LType, m: nat, s: Slot, i: nat, n: nat, writes: bool, maxSize: nat, n0: nat,
                                       out0: Bytes, n1: nat, out1: Bytes)
    requires l.Submessage? && m < |l.members| && l.members[m].Union? && i <= n <= |l.members[m].fields|
             && SlotOk(l, m, s)
    requires Wrote(writes, maxSize, n0, out0, n1, out1, UnionBytes(l, m, s, i), false)
    ensures Wrote(writes, maxSize, n0, out0, n1, out1, UnionBytes(l, m, s, n), false)
    decreases n
  {
    if i < n {
      UnionFailed(l, m, s, i, n - 1, writes, maxSize, n0, out0, n1, out1);
      var f := l.members[m].fields[n - 1];
      WroteNot(writes, maxSize, n0, out0, n1, out1, UnionBytes(l, m, s, n - 1), if s.which == f.tag
               then TaggedBytes(f, s.u) else Some([]));
    }
  }

  lemma {:induction false} FixedSize(f: Field, items: seq<Val>, n: nat, size: nat)
    requires n <= |items| && forall k :: 0 <= k < |items| ==> ValOk(f.ltype, f.dataSize, items[k])
    requires (f.ltype.Fixed4? && size == 4) || (f.ltype.Fixed8? && size == 8)
    ensures ItemsBytes(f, items, n, false).Some? && |ItemsBytes(f, items, n, false).value| == size * n
    decreases n
  {
    if n > 0 { FixedSize(f, items, n - 1, size); }
  }

  /** pb_ostream_t: without a callback it only counts. */
  class OStream {
    const writes: bool
    const maxSize: nat
    var bytesWritten: nat
    var out: Bytes  // what the callback has got

    constructor (writes: bool, maxSize: nat, out: Bytes)
      ensures this.writes == writes && this.maxSize == maxSize && bytesWritten == 0 && this.out == out
    {
      this.writes, this.maxSize, this.bytesWritten, this.out := writes, maxSize, 0, out;
    }

    ghost predicate Fits()
      reads this
    { writes ==> bytesWritten <= maxSize }

    /** pb_write; a counting pass has no buffer. */
    method Write(buf: Bytes, count: nat) returns (ok: bool)
      requires Fits() && (writes ==> |buf| == count)
      modifies this`bytesWritten, this`out
      ensures forall bs: Bytes :: |bs| == count && (writes ==> bs == buf) ==>
                Wrote(writes, maxSize, old(bytesWritten), old(out), bytesWritten, out, Some(bs), ok)
    {
      if count > 0 && writes {
        if bytesWritten + count > maxSize { return false; }
        out := out + buf;
      }
      bytesWritten := bytesWritten + count;
      ok := true;
    }

    /** pb_encode_varint: every byte with its high bit, the last one without. */
    method EncodeVarint(value: nat) returns (ok: bool)
      requires Fits()
      modifies this`bytesWritten, this`out
      ensures Wrote(writes, maxSize, old(bytesWritten), old(out), bytesWritten, out, Some(Varint(value)), ok)
    {
      hide Wrote;
      if value <= 0x7F {
        ok := Write([value], 1);
        return;
      }
      var buffer: Bytes, left := [], value;
      while left != 0
        invariant left != 0 ==> buffer + Varint(left) == Varint(value)
        invariant left == 0 ==>
                    buffer != [] && buffer[|buffer| - 1] >= 128
                    && Varint(value) == buffer[..|buffer| - 1] + [buffer[|buffer| - 1] - 128]
      {
        var next := buffer + [left % 128 + 128];
        assert left >= 128 ==> next + Varint(left / 128) == buffer + Varint(left);
        buffer, left := next, left / 128;
      }
      var i := |buffer|;
      buffer := buffer[..i - 1] + [buffer[i - 1] - 128];
      ok := Write(buffer, i);
    }

    /** pb_encode_tag. */
    method EncodeTag(wire: nat, tag: Word) returns (ok: bool)
      requires Fits() && wire < 8
      modifies this`bytesWritten, this`out
      ensures Wrote(writes, maxSize, old(bytesWritten), old(out), bytesWritten, out, Some(TagBytes(wire, tag)), ok)
    {
      ok := EncodeVarint(tag * 8 + wire);
    }

    /** pb_encode_string. */
    method EncodeString(bs: Bytes) returns (ok: bool)
      requires Fits()
      modifies this`bytesWritten, this`out
      ensures Wrote(writes, maxSize, old(bytesWritten), old(out), bytesWritten, out, Some(Delimited(bs)), ok)
    {
      ok := EncodeVarint(|bs|);
      if ok {
        ok := Write(bs, |bs|);
      }
    }

    // ---- items ----

    /** pb_enc_bool, pb_enc_varint, pb_enc_uvarint, pb_enc_svarint, pb_enc_fixed32, pb_enc_fixed64. */
    method EncodeNum(l: LType, size: nat, n: int) returns (ok: bool)
      requires Fits() && NumFits(l, size, n)
      modifies this`bytesWritten, this`out
      ensures Wrote(writes, maxSize, old(bytesWritten), old(out), bytesWritten, out, Some(NumBytes(l, size, n)), ok)
    {
      hide Wrote;
      hide Varint;
      if l.Fixed4? {
        var bs := Fixed32(n);
        ok := Write(bs, 4);
      } else if l.Fixed8? {
        var bs := Fixed64(n);
        ok := Write(bs, 8);
      } else {
        ok := EncodeVarint(if l.SignedVarint? then Unsigned64(n) else if l.ZigZagVarint? then ZigZag(n) else n);
      }
    }

    /** pb_enc_string: up to the terminator, or all of the buffer. */
    method EncodeCString(bs: Bytes) returns (ok: bool)
      requires Fits()
      modifies this`bytesWritten, this`out
      ensures Wrote(writes, maxSize, old(bytesWritten), old(out), bytesWritten, out, Some(Delimited(UpToZero(bs))), ok)
    {
      hide Wrote;
      hide Delimited;
      hide UpToZero;
      var n := 0;
      while n < |bs| && bs[n] != 0
        invariant n <= |bs| && 0 !in bs[..n]
      {
        assert bs[..n + 1] == bs[..n] + [bs[n]];
        n := n + 1;
      }
      UpToZeroIs(bs, n);
      ok := EncodeString(bs[..n]);
    }

    /** PB_ENCODERS. */
    method EncodeVal(l: LType, size: nat, v: Val) returns (ok: bool)
      requires Fits() && ValOk(l, size, v)
      modifies this`bytesWritten, this`out
      ensures Wrote(writes, maxSize, old(bytesWritten), old(out), bytesWritten, out, ValBytes(l, size, v), ok)
      decreases l, 4, 0
    {
      hide Wrote;
      hide Delimited;
      hide UpToZero;
      hide NumBytes;
      hide NumFits;
      match l
      case BytesArray =>
        if |v.bs| > size - BYTES_OFFSET { ok := false; Nothing(); } else { ok := EncodeString(v.bs); }
      case CString => ok := EncodeCString(v.bs);
      case FixedBytes => ok := EncodeString(v.bs);
      case Submessage(_) =>
        SizeOfStruct(l, size, v);
        ok := EncodeSubmessage(l, v);
      case _ => ok := EncodeNum(l, size, v.n);
    }

    lemma Nothing()
      requires Fits()
      ensures Wrote(writes, maxSize, bytesWritten, out, bytesWritten, out, None, false)
    {
    }

    /** The size of a struct is of no matter. */
    static lemma SizeOfStruct(l: LType, size: nat, v: Val)
      requires l.Submessage? && ValOk(l, size, v)
      ensures ValOk(l, 0, v) && ValBytes(l, 0, v) == ValBytes(l, size, v)
    {
    }

    /** pb_encode_submessage: first the size, then the same again into a stream of that size. */
    method EncodeSubmessage(l: LType, v: Val) returns (ok: bool)
      requires Fits() && l.Submessage? && ValOk(l, 0, v)
      modifies this`bytesWritten, this`out
      ensures Wrote(writes, maxSize, old(bytesWritten), old(out), bytesWritten, out, ValBytes(l, 0, v), ok)
      decreases l, 3, 0
    {
      var substream := new OStream(false, 0, []);
      ok := substream.Encode(l, v.slots);
      if !ok { return; }
      var size := substream.bytesWritten;
      ok := EncodeVarint(size);
      if !ok { return; }
      if !writes {
        ok := Write([], size);
        return;
      }
      if bytesWritten + size > maxSize { return false; }
      substream := new OStream(true, size, out);
      ok := substream.Encode(l, v.slots);
      bytesWritten := bytesWritten + substream.bytesWritten;
      out := substream.out;
      if substream.bytesWritten != size { return false; }
    }

    /** pb_encode. */
    method Encode(l: LType, slots: seq<Slot>) returns (ok: bool)
      requires Fits() && l.Submessage? && SlotsOk(l, slots)
      modifies this`bytesWritten, this`out
      ensures Wrote(writes, maxSize, old(bytesWritten), old(out), bytesWritten, out,
                    SlotsBytes(l, slots, |l.members|), ok)
      decreases l, 2, 0
    {
      ok := true;
      for i := 0 to |l.members|
        invariant ok && Fits()
        invariant Wrote(writes, maxSize, old(bytesWritten), old(out), bytesWritten, out, SlotsBytes(l, slots, i), true)
      {
        ghost var n, o := bytesWritten, out;
        ok := EncodeSlot(l, i, slots[i]);
        WroteBoth(writes, maxSize, old(bytesWritten), old(out), n, o, bytesWritten, out, SlotsBytes(l, slots, i),
                  SlotBytes(l, i, slots[i]), ok);
        if !ok {
          SlotsFailed(l, slots, i + 1, |l.members|, writes, maxSize, old(bytesWritten), old(out), bytesWritten, out);
          return;
        }
      }
    }

    /** encode_basic_field. */
    method EncodeSlot(l: LType, i: nat, s: Slot) returns (ok: bool)
      requires Fits() && l.Submessage? && i < |l.members| && SlotOk(l, i, s)
      modifies this`bytesWritten, this`out
      ensures Wrote(writes, maxSize, old(bytesWritten), old(out), bytesWritten, out, SlotBytes(l, i, s), ok)
      decreases l, 1, 0
    {
      ok := true;
      match l.members[i]
      case Plain(f, rule, arraySize) =>
        match rule {
          case Required => ok := EncodeTagged(f, s.v);
          case Optional => if s.has { ok := EncodeTagged(f, s.o); }
          case Singular => if !IsDefault(f.ltype, f.dataSize, s.v) { ok := EncodeTagged(f, s.v); }
          case Repeated => ok := EncodeArray(f, arraySize, s.items, s.count);
          case FixedCount => ok := EncodeArray(f, arraySize, s.items, arraySize);
        }
      case Union(fields) => ok := EncodeUnion(l, i, s);
    }

    /** A tag for the field and its data. */
    method EncodeTagged(f: Field, v: Val) returns (ok: bool)
      requires Fits() && ValOk(f.ltype, f.dataSize, v)
      modifies this`bytesWritten, this`out
      ensures Wrote(writes, maxSize, old(bytesWritten), old(out), bytesWritten, out, TaggedBytes(f, v), ok)
      decreases f.ltype, 5, 0
    {
      hide Wrote;
      hide ValBytes;
      hide TagBytes;
      ghost var tag, val := Some(TagBytes(WireType(f.ltype), f.tag)), ValBytes(f.ltype, f.dataSize, v);
      ok := EncodeTag(WireType(f.ltype), f.tag);
      ghost var n, o := bytesWritten, out;
      WroteFits(writes, maxSize, old(bytesWritten), old(out), n, o, tag, ok);
      if ok {
        ok := EncodeVal(f.ltype, f.dataSize, v);
        WroteBoth(writes, maxSize, old(bytesWritten), old(out), n, o, bytesWritten, out, tag, val, ok);
      } else {
        WroteNot(writes, maxSize, old(bytesWritten), old(out), n, o, tag, val);
      }
    }

    /** The fields of a oneof, of which at most one is there. */
    method EncodeUnion(l: LType, i: nat, s: Slot) returns (ok: bool)
      requires Fits() && l.Submessage? && i < |l.members| && l.members[i].Union? && SlotOk(l, i, s)
      modifies this`bytesWritten, this`out
      ensures Wrote(writes, maxSize, old(bytesWritten), old(out), bytesWritten, out,
                    UnionBytes(l, i, s, |l.members[i].fields|), ok)
      decreases l, 0, 0
    {
      ok := true;
      var fields := l.members[i].fields;
      for j := 0 to |fields|
        invariant ok && Fits()
        invariant Wrote(writes, maxSize, old(bytesWritten), old(out), bytesWritten, out, UnionBytes(l, i, s, j), true)
      {
        if s.which == fields[j].tag {
          ghost var n, o := bytesWritten, out;
          ok := EncodeTagged(fields[j], s.u);
          WroteBoth(writes, maxSize, old(bytesWritten), old(out), n, o, bytesWritten, out, UnionBytes(l, i, s, j),
                    TaggedBytes(fields[j], s.u), ok);
          if !ok {
            UnionFailed(l, i, s, j + 1, |fields|, writes, maxSize, old(bytesWritten), old(out), bytesWritten, out);
            return;
          }
        }
      }
    }

    /** encode_array: numbers are packed, and their size is known or counted first. */
    method EncodeArray(f: Field, arraySize: nat, items: seq<Val>, count: nat) returns (ok: bool)
      requires Fits() && |items| == arraySize && forall k :: 0 <= k < |items| ==> ValOk(f.ltype, f.dataSize, items[k])
      modifies this`bytesWritten, this`out
      ensures Wrote(writes, maxSize, old(bytesWritten), old(out), bytesWritten, out,
                    ArrayBytes(f, arraySize, items, count), ok)
      decreases f.ltype, 7, 0
    {
      if count == 0 { return true; }
      if count > arraySize { return false; }
      if Packable(f.ltype) {
        ok := EncodePacked(f, items, count);
      } else {
        ok := EncodeItems(f, items, count, true);
      }
    }

    method EncodeItems(f: Field, items: seq<Val>, count: nat, tagged: bool) returns (ok: bool)
      requires Fits() && count <= |items| && forall k :: 0 <= k < |items| ==> ValOk(f.ltype, f.dataSize, items[k])
      modifies this`bytesWritten, this`out
      ensures Wrote(writes, maxSize, old(bytesWritten), old(out), bytesWritten, out,
                    ItemsBytes(f, items, count, tagged), ok)
      decreases f.ltype, 6, 0
    {
      ok := true;
      for i := 0 to count
        invariant ok && Fits()
        invariant Wrote(writes, maxSize, old(bytesWritten), old(out), bytesWritten, out,
                        ItemsBytes(f, items, i, tagged), true)
      {
        ghost var n, o := bytesWritten, out;
        if tagged { ok := EncodeTagged(f, items[i]); } else { ok := EncodeVal(f.ltype, f.dataSize, items[i]); }
        WroteBoth(writes, maxSize, old(bytesWritten), old(out), n, o, bytesWritten, out,
                  ItemsBytes(f, items, i, tagged),
                  if tagged then TaggedBytes(f, items[i]) else ValBytes(f.ltype, f.dataSize, items[i]), ok);
        if !ok {
          ItemsFailed(f, items, i + 1, count, tagged, writes, maxSize, old(bytesWritten), old(out), bytesWritten, out);
          return;
        }
      }
    }

    method EncodePacked(f: Field, items: seq<Val>, count: nat) returns (ok: bool)
      requires Fits() && 0 < count <= |items| && Packable(f.ltype) && forall k :: 0 <= k < |items| ==>
                 ValOk(f.ltype, f.dataSize, items[k])
      modifies this`bytesWritten, this`out
      ensures Wrote(writes, maxSize, old(bytesWritten), old(out), bytesWritten, out,
                    ArrayBytes(f, |items|, items, count), ok)
      decreases f.ltype, 6, 2
    {
      hide Varint;
      hide ItemsBytes;
      hide NumFits;
      ok := EncodeTag(2, f.tag);
      if !ok { return; }
      var size;
      ok, size := PackedSize(f, items, count);
      if !ok { return; }
      ok := EncodeVarint(size);
      if !ok { return; }
      if !writes {
        ok := Write([], size);  // just sizing
        return;
      }
      ok := EncodeItems(f, items, count, false);
    }

    /** The size of a packed array is known or counted. */
    method PackedSize(f: Field, items: seq<Val>, count: nat) returns (ok: bool, size: nat)
      requires 0 < count <= |items| && Packable(f.ltype) && forall k :: 0 <= k < |items| ==>
                 ValOk(f.ltype, f.dataSize, items[k])
      ensures ok <==> ItemsBytes(f, items, count, false).Some?
      ensures ok ==> size == |ItemsBytes(f, items, count, false).value|
      decreases f.ltype, 6, 1
    {
      ok, size := true, 0;
      if f.ltype.Fixed4? {
        FixedSize(f, items, count, 4);
        size := 4 * count;
      } else if f.ltype.Fixed8? {
        FixedSize(f, items, count, 8);
        size := 8 * count;
      } else {
        var sizestream := new OStream(false, 0, []);
        ok := sizestream.EncodeItems(f, items, count, false);
        size := sizestream.bytesWritten;
      }
    }
  }

  /** pb_get_encoded_size. */
  method GetEncodedSize(l: LType, v: Val) returns (size: Option<nat>)
    requires l.Submessage? && ValOk(l, 0, v)
    ensures size == match MessageBytes(l, v) case None => None case Some(bs) => Some(|bs|)
  {
    var stream := new OStream(false, 0, []);
    var ok := stream.Encode(l, v.slots);
    size := if ok then Some(stream.bytesWritten) else None;
  }

  /** pb_encode into a buffer. */
  method EncodeToBuffer(l: LType, v: Val, bufsize: nat) returns (r: Option<Bytes>)
    requires l.Submessage? && ValOk(l, 0, v)
    ensures r.Some? <==> MessageBytes(l, v).Some? && |MessageBytes(l, v).value| <= bufsize
    ensures r.Some? ==> r == MessageBytes(l, v)
  {
    var stream := new OStream(true, bufsize, []);
    var ok := stream.Encode(l, v.slots);
    assert ok ==> [] + MessageBytes(l, v).value == MessageBytes(l, v).value;
    r := if ok then Some(stream.out) else None;
  }

  /** A buffer of the size counted is just large enough. */
  method SizeThenEncode(l: LType, v: Val) returns (r: Option<Bytes>)
    requires l.Submessage? && ValOk(l, 0, v)
    ensures r == MessageBytes(l, v)
  {
    var size := GetEncodedSize(l, v);
    if size == None { return None; }
    r := EncodeToBuffer(l, v, size.value);
  }
}
