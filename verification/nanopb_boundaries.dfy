/** What pb_decode makes of a field depends on the bytes of that field alone (pb_decode.c), so
    fields a message type does not have can be put in at any boundary of any message. */
module NanopbBoundaries {
  import opened InternalKeys
  import opened Coding
  import opened NanopbMessages
  import opened NanopbDecode
  import opened NanopbRoundTrip
  import opened NanopbUnknown

  // ---- the same n bytes in two streams ----

  ghost predicate Alike(a: Bytes, p: nat, aEnd: nat, b: Bytes, q: nat, bEnd: nat, n: nat) {
    p + n <= aEnd <= |a| && q + n <= bEnd <= |b| && a[p..p + n] == b[q..q + n]
  }

  lemma AlikeRest(a: Bytes, p: nat, aEnd: nat, b: Bytes, q: nat, bEnd: nat, n: nat, k: nat)
    requires Alike(a, p, aEnd, b, q, bEnd, n) && k <= n
    ensures Alike(a, p + k, aEnd, b, q + k, bEnd, n - k) && p + n <= aEnd <= |a| && q + n <= bEnd <= |b|
    ensures a[p..p + k] == b[q..q + k] && (k < n ==> a[p + k] == b[q + k])
  {
    assert a[p..p + n][k..] == a[p + k..p + n] && b[q..q + n][k..] == b[q + k..q + n];
    assert a[p..p + n][..k] == a[p..p + k] && b[q..q + n][..k] == b[q..q + k];
    if k < n { assert a[p + k] == a[p..p + n][k] && b[q + k] == b[q..q + n][k]; }
  }

  lemma AlikeFirst(a: Bytes, p: nat, aEnd: nat, b: Bytes, q: nat, bEnd: nat, n: nat, k: nat)
    requires Alike(a, p, aEnd, b, q, bEnd, n) && k <= n
    ensures Alike(a, p, aEnd, b, q, bEnd, k) && Alike(b, q, bEnd, a, p, aEnd, k)
  {
    AlikeRest(a, p, aEnd, b, q, bEnd, n, k);
  }

  /** Part of what is alike, as a stream of its own. */
  lemma AlikePart(a: Bytes, p: nat, aEnd: nat, b: Bytes, q: nat, bEnd: nat, n: nat, k: nat, m: nat)
    requires Alike(a, p, aEnd, b, q, bEnd, n) && k + m <= n
    ensures Alike(a, p + k, p + k + m, b, q + k, q + k + m, m)
  {
    AlikeRest(a, p, aEnd, b, q, bEnd, n, k);
    AlikeRest(a, p + k, aEnd, b, q + k, bEnd, n - k, m);
  }

  // ---- numbers and leaves ----

  lemma {:induction false} RestAlike(a: Bytes, p: nat, aEnd: nat, b: Bytes, q: nat, bEnd: nat, n: nat, bitpos: nat,
                                     m: nat, result: Word)
    requires Alike(a, p, aEnd, b, q, bEnd, n)
    requires var r := Varint32Rest(a, p, aEnd, bitpos, m, result); r.Some? && r.value.1 <= p + n
    ensures var r := Varint32Rest(a, p, aEnd, bitpos, m, result).value;
            Varint32Rest(b, q, bEnd, bitpos, m, result) == Some((r.0, r.1 - p + q))
    decreases n
  {
    hide Shifted;
    hide Low32;
    hide Alike;
    AlikeRest(a, p, aEnd, b, q, bEnd, n, 0);
    if a[p] >= 128 {
      AlikeRest(a, p, aEnd, b, q, bEnd, n, 1);
      var digit := a[p] % 128;
      RestAlike(a, p + 1, aEnd, b, q + 1, bEnd, n - 1, bitpos + 7, 128 * m, if bitpos >= 32 then result
                else Low32(result + Shifted(digit, m)));
    }
  }

  lemma Varint32Alike(a: Bytes, p: nat, aEnd: nat, b: Bytes, q: nat, bEnd: nat, n: nat)
    requires Alike(a, p, aEnd, b, q, bEnd, n)
    requires var r := Varint32At(a, p, aEnd); r.Some? && r.value.1 <= p + n
    ensures var r := Varint32At(a, p, aEnd).value; Varint32At(b, q, bEnd) == Some((r.0, r.1 - p + q))
  {
    hide Varint32Rest;
    hide Alike;
    AlikeRest(a, p, aEnd, b, q, bEnd, n, 0);
    if a[p] >= 128 {
      AlikeRest(a, p, aEnd, b, q, bEnd, n, 1);
      RestAlike(a, p + 1, aEnd, b, q + 1, bEnd, n - 1, 7, 128, a[p] - 128);
    }
  }

  lemma {:induction false} VarintAlike(a: Bytes, p: nat, aEnd: nat, b: Bytes, q: nat, bEnd: nat, n: nat, budget: nat)
    requires Alike(a, p, aEnd, b, q, bEnd, n)
    requires var r := DecodeVarint(a, p, aEnd, budget); r.Some? && r.value.1 <= p + n
    ensures var r := DecodeVarint(a, p, aEnd, budget).value;
            DecodeVarint(b, q, bEnd, budget) == Some((r.0, r.1 - p + q))
    decreases n
  {
    hide Alike;
    AlikeRest(a, p, aEnd, b, q, bEnd, n, 0);
    if a[p] >= 128 {
      AlikeRest(a, p, aEnd, b, q, bEnd, n, 1);
      VarintAlike(a, p + 1, aEnd, b, q + 1, bEnd, n - 1, budget - 1);
    }
  }

  lemma {:induction false} SkipVarintAlike(a: Bytes, p: nat, aEnd: nat, b: Bytes, q: nat, bEnd: nat, n: nat)
    requires Alike(a, p, aEnd, b, q, bEnd, n) && p <= aEnd <= |a|
    requires var r := SkipVarint(a, p, aEnd); r.Some? && r.value <= p + n
    ensures q <= bEnd <= |b| && SkipVarint(b, q, bEnd) == Some(SkipVarint(a, p, aEnd).value - p + q)
    decreases n
  {
    hide Alike;
    AlikeRest(a, p, aEnd, b, q, bEnd, n, 0);
    if a[p] >= 128 {
      AlikeRest(a, p, aEnd, b, q, bEnd, n, 1);
      SkipVarintAlike(a, p + 1, aEnd, b, q + 1, bEnd, n - 1);
    }
  }

  lemma SkipAlike(wire: nat, a: Bytes, p: nat, aEnd: nat, b: Bytes, q: nat, bEnd: nat, n: nat)
    requires Alike(a, p, aEnd, b, q, bEnd, n) && p <= aEnd <= |a|
    requires var r := SkipField(wire, a, p, aEnd); r.Some? && r.value <= p + n
    ensures q <= bEnd <= |b| && SkipField(wire, b, q, bEnd) == Some(SkipField(wire, a, p, aEnd).value - p + q)
  {
    hide Varint32At;
    hide SkipVarint;
    hide Alike;
    AlikeRest(a, p, aEnd, b, q, bEnd, n, 0);
    if wire == 0 { SkipVarintAlike(a, p, aEnd, b, q, bEnd, n); }
    else if wire == 2 { Varint32Alike(a, p, aEnd, b, q, bEnd, n); }
  }

  lemma SubstreamAlike(a: Bytes, p: nat, aEnd: nat, b: Bytes, q: nat, bEnd: nat, n: nat)
    requires Alike(a, p, aEnd, b, q, bEnd, n)
    requires var r := SubstreamAt(a, p, aEnd); r.Some? && r.value.1 <= p + n
    ensures var r := SubstreamAt(a, p, aEnd).value;
            && SubstreamAt(b, q, bEnd) == Some((r.0 - p + q, r.1 - p + q))
            && Alike(a, r.0, r.1, b, r.0 - p + q, r.1 - p + q, r.1 - r.0)
  {
    hide Varint32At;
    hide Alike;
    AlikeRest(a, p, aEnd, b, q, bEnd, n, 0);
    Varint32Alike(a, p, aEnd, b, q, bEnd, n);
    var r := SubstreamAt(a, p, aEnd).value;
    AlikePart(a, p, aEnd, b, q, bEnd, n, r.0 - p, r.1 - r.0);
  }

  lemma NumAlike(l: LType, size: nat, a: Bytes, p: nat, aEnd: nat, b: Bytes, q: nat, bEnd: nat, n: nat)
    requires Packable(l) && Alike(a, p, aEnd, b, q, bEnd, n) && p <= aEnd <= |a|
    requires var r := NumAt(l, size, a, p, aEnd); r.Some? && r.value.1 <= p + n
    ensures q <= bEnd <= |b| && var r := NumAt(l, size, a, p, aEnd).value;
            NumAt(l, size, b, q, bEnd) == Some((r.0, r.1 - p + q))
  {
    hide Varint32At;
    hide DecodeVarint;
    hide Alike;
    hide Low64;
    hide Low32;
    hide DecodeFixed32;
    hide DecodeFixed64;
    hide Signed64;
    hide Signed32;
    hide NumFits;
    AlikeRest(a, p, aEnd, b, q, bEnd, n, 0);
    if l.Bool? { Varint32Alike(a, p, aEnd, b, q, bEnd, n); }
    else if l.Fixed4? { AlikeRest(a, p, aEnd, b, q, bEnd, n, 4); }
    else if l.Fixed8? { AlikeRest(a, p, aEnd, b, q, bEnd, n, 8); }
    else { VarintAlike(a, p, aEnd, b, q, bEnd, n, 10); }
  }

  lemma RawAlike(a: Bytes, p: nat, aEnd: nat, b: Bytes, q: nat, bEnd: nat, n: nat, k: nat)
    requires Alike(a, p, aEnd, b, q, bEnd, n) && k <= n && p <= aEnd <= |a|
    ensures q <= bEnd <= |b| && RawAt(a, p, aEnd, k) == Some((a[p..p + k], p + k))
            && RawAt(b, q, bEnd, k) == Some((a[p..p + k], q + k))
  {
    AlikeRest(a, p, aEnd, b, q, bEnd, n, k);
  }

  /** The value behind its length. */
  function BytesRest(l: LType, size: nat, was: Val, length: Word, data: Bytes, p: nat, limit: nat): Option<(Val, nat)>
    requires !l.Submessage? && !Packable(l) && ValOk(l, size, was) && p <= limit <= |data|
  {
    if l.FixedBytes? && length == 0 then Some((Raw(Zeros(size)), p))
    else if l.BytesArray? && length + BYTES_OFFSET > size then None
    else if l.CString? && length + 1 > size then None
    else if l.FixedBytes? && length != size then None
    else match RawAt(data, p, limit, length)
      case None => None
      case Some(r) => Some((Raw(if l.CString? then r.0 + [0] + was.bs[length + 1..] else r.0), r.1))
  }

  lemma LeafIs(l: LType, size: nat, was: Val, data: Bytes, p: nat, limit: nat)
    requires !l.Submessage? && !Packable(l) && ValOk(l, size, was) && p <= limit <= |data|
    ensures var n := Varint32At(data, p, limit);
       LeafAt(l, size, was, data, p, limit) == if n == None then None
                                               else BytesRest(l, size, was, n.value.0, data, n.value.1, limit)
  {
    hide Varint32At;
    hide RawAt;
    hide Zeros;
  }

  lemma BytesRestAlike(l: LType, size: nat, was: Val, length: Word, a: Bytes, p: nat, aEnd: nat, b: Bytes, q: nat,
                       bEnd: nat, n: nat)
    requires !l.Submessage? && !Packable(l) && ValOk(l, size, was) && Alike(a, p, aEnd, b, q, bEnd, n)
             && p <= aEnd <= |a|
    requires var r := BytesRest(l, size, was, length, a, p, aEnd); r.Some? && r.value.1 <= p + n
    ensures q <= bEnd <= |b|
    ensures var r := BytesRest(l, size, was, length, a, p, aEnd).value;
            BytesRest(l, size, was, length, b, q, bEnd) == Some((r.0, r.1 - p + q))
  {
    hide Alike;
    hide RawAt;
    hide Zeros;
    AlikeRest(a, p, aEnd, b, q, bEnd, n, 0);
    if !(l.FixedBytes? && length == 0) { RawAlike(a, p, aEnd, b, q, bEnd, n, length); }
  }

  lemma BytesAlike(l: LType, size: nat, was: Val, a: Bytes, p: nat, aEnd: nat, b: Bytes, q: nat, bEnd: nat, n: nat)
    requires !l.Submessage? && !Packable(l) && ValOk(l, size, was) && Alike(a, p, aEnd, b, q, bEnd, n)
             && p <= aEnd <= |a|
    requires var r := LeafAt(l, size, was, a, p, aEnd); r.Some? && r.value.1 <= p + n
    ensures q <= bEnd <= |b|
    ensures var r := LeafAt(l, size, was, a, p, aEnd).value;
            LeafAt(l, size, was, b, q, bEnd) == Some((r.0, r.1 - p + q))
  {
    hide LeafAt;
    hide BytesRest;
    hide Varint32At;
    hide Alike;
    hide ValOk;
    AlikeRest(a, p, aEnd, b, q, bEnd, n, 0);
    LeafIs(l, size, was, a, p, aEnd);
    LeafIs(l, size, was, b, q, bEnd);
    var length := Varint32At(a, p, aEnd).value;
    RestEnds(l, size, was, length.0, a, length.1, aEnd);
    Varint32Alike(a, p, aEnd, b, q, bEnd, n);
    AlikeRest(a, p, aEnd, b, q, bEnd, n, length.1 - p);
    BytesRestAlike(l, size, was, length.0, a, length.1, aEnd, b, length.1 - p + q, bEnd, n - (length.1 - p));
  }

  lemma RestEnds(l: LType, size: nat, was: Val, length: Word, data: Bytes, p: nat, limit: nat)
    requires !l.Submessage? && !Packable(l) && ValOk(l, size, was) && p <= limit <= |data|
    ensures var r := BytesRest(l, size, was, length, data, p, limit); r.Some? ==> p <= r.value.1
  {
    hide Zeros;
  }

  lemma LeafAlike(l: LType, size: nat, was: Val, a: Bytes, p: nat, aEnd: nat, b: Bytes, q: nat, bEnd: nat, n: nat)
    requires !l.Submessage? && ValOk(l, size, was) && Alike(a, p, aEnd, b, q, bEnd, n) && p <= aEnd <= |a|
    requires var r := LeafAt(l, size, was, a, p, aEnd); r.Some? && r.value.1 <= p + n
    ensures q <= bEnd <= |b|
    ensures var r := LeafAt(l, size, was, a, p, aEnd).value;
            LeafAt(l, size, was, b, q, bEnd) == Some((r.0, r.1 - p + q))
  {
    hide Varint32At;
    hide NumAt;
    hide Alike;
    hide ValOk;
    AlikeRest(a, p, aEnd, b, q, bEnd, n, 0);
    if Packable(l) { NumAlike(l, size, a, p, aEnd, b, q, bEnd, n); }
    else { BytesAlike(l, size, was, a, p, aEnd, b, q, bEnd, n); }
  }

  // ---- fields ----

  lemma {:induction false} PackedAlike(f: Field, items: seq<Val>, count: nat, a: Bytes, p: nat, aEnd: nat, b: Bytes,
                                       q: nat, bEnd: nat)
    requires Packable(f.ltype) && ItemsOk(f, items)
    requires p <= aEnd && q <= bEnd && aEnd - p == bEnd - q && Alike(a, p, aEnd, b, q, bEnd, aEnd - p) && aEnd <= |a|
    requires PackedAt(f, items, count, a, p, aEnd).Some?
    ensures bEnd <= |b| && PackedAt(f, items, count, b, q, bEnd) == PackedAt(f, items, count, a, p, aEnd)
    decreases aEnd - p
  {
    hide NumAt;
    hide Alike;
    AlikeRest(a, p, aEnd, b, q, bEnd, aEnd - p, 0);
    if p < aEnd {
      var one := NumAt(f.ltype, f.dataSize, a, p, aEnd).value;
      NumAlike(f.ltype, f.dataSize, a, p, aEnd, b, q, bEnd, aEnd - p);
      AlikeRest(a, p, aEnd, b, q, bEnd, aEnd - p, one.1 - p);
      PackedAlike(f, items[count := Num(one.0)], count + 1, a, one.1, aEnd, b, one.1 - p + q, bEnd);
    }
  }

  lemma ValAlike(f: Field, was: Val, again: bool, a: Bytes, p: nat, aEnd: nat, b: Bytes, q: nat, bEnd: nat, n: nat)
    requires FieldOk(f) && ValOk(f.ltype, f.dataSize, was) && Alike(a, p, aEnd, b, q, bEnd, n) && p <= aEnd <= |a|
    requires var r := ValAt(f, was, again, a, p, aEnd); r.Some? && r.value.1 <= p + n
    ensures q <= bEnd <= |b|
    ensures var r := ValAt(f, was, again, a, p, aEnd).value;
            ValAt(f, was, again, b, q, bEnd) == Some((r.0, r.1 - p + q))
    decreases f.ltype, 5, 0
  {
    hide LeafAt;
    hide SubstreamAt;
    hide MessageAt;
    hide Alike;
    AlikeRest(a, p, aEnd, b, q, bEnd, n, 0);
    if !f.ltype.Submessage? {
      LeafAlike(f.ltype, f.dataSize, was, a, p, aEnd, b, q, bEnd, n);
    } else {
      var sub := SubstreamAt(a, p, aEnd).value;
      SubstreamAlike(a, p, aEnd, b, q, bEnd, n);
      MessageAlike(f.ltype, if again then Defaults(f.ltype, was.slots)
                   else was.slots, a, sub.0, sub.1, b, sub.0 - p + q, sub.1 - p + q);
    }
  }

  lemma ItemsAlike(f: Field, items: seq<Val>, count: nat, wire: nat, a: Bytes, p: nat, aEnd: nat, b: Bytes, q: nat,
                   bEnd: nat, n: nat)
    requires FieldOk(f) && ItemsOk(f, items) && Alike(a, p, aEnd, b, q, bEnd, n) && p <= aEnd <= |a|
    requires var r := ItemsAt(f, items, count, wire, a, p, aEnd); r.Some? && r.value.2 <= p + n
    ensures q <= bEnd <= |b|
    ensures var r := ItemsAt(f, items, count, wire, a, p, aEnd).value;
            ItemsAt(f, items, count, wire, b, q, bEnd) == Some((r.0, r.1, r.2 - p + q))
    decreases f.ltype, 6, 0
  {
    hide SubstreamAt;
    hide PackedAt;
    hide ValAt;
    hide Alike;
    hide FieldOk;
    AlikeRest(a, p, aEnd, b, q, bEnd, n, 0);
    if wire == 2 && Packable(f.ltype) {
      var sub := SubstreamAt(a, p, aEnd).value;
      SubstreamAlike(a, p, aEnd, b, q, bEnd, n);
      PackedAlike(f, items, count, a, sub.0, sub.1, b, sub.0 - p + q, sub.1 - p + q);
    } else {
      ValAlike(f, items[count], true, a, p, aEnd, b, q, bEnd, n);
    }
  }

  lemma MemberAlike(l: LType, st: State, i: nat, j: nat, wire: nat, a: Bytes, p: nat, aEnd: nat, b: Bytes, q: nat,
                    bEnd: nat, n: nat)
    requires l.Submessage? && TypeOk(l) && StateOk(l, st) && i < |l.members| && HasField(l.members[i], j)
    requires Alike(a, p, aEnd, b, q, bEnd, n) && p <= aEnd <= |a|
    requires var r := MemberAt(l, st, i, j, wire, a, p, aEnd); r.Some? && r.value.1 <= p + n
    ensures q <= bEnd <= |b|
    ensures var r := MemberAt(l, st, i, j, wire, a, p, aEnd).value;
            MemberAt(l, st, i, j, wire, b, q, bEnd) == Some((r.0, r.1 - p + q))
    decreases l, 2, 0
  {
    hide ValAt;
    hide ItemsAt;
    hide Alike;
    hide Defaults;
    hide ZeroVal;
    AlikeRest(a, p, aEnd, b, q, bEnd, n, 0);
    assert MemberOk(l, i) && SlotOk(l, i, st.slots[i]);
    var s := st.slots[i];
    match l.members[i] {
      case Plain(f, rule, _) =>
        if rule.Required? || rule.Singular? { ValAlike(f, s.v, false, a, p, aEnd, b, q, bEnd, n); }
        else if rule.Optional? { ValAlike(f, s.o, false, a, p, aEnd, b, q, bEnd, n); }
        else if rule.Repeated? { ItemsAlike(f, s.items, s.count, wire, a, p, aEnd, b, q, bEnd, n); }
        else { ItemsAlike(f, s.items, if st.fixedField == Some(i) then st.fixedSize
                          else 0, wire, a, p, aEnd, b, q, bEnd, n); }
      case Union(fields) =>
        var f := fields[j];
        assert forall k :: 0 <= k < |fields| && fields[k].tag == f.tag ==>
                 HasTag(l.members[i], k, f.tag) && HasTag(l.members[i], j, f.tag);
        var was := if s.which == f.tag then s.u
                   else if f.ltype.Submessage? then Struct(Defaults(f.ltype, ZeroVal(f.ltype, f.dataSize).slots))
                   else ZeroVal(f.ltype, f.dataSize);
        ValAlike(f, was, false, a, p, aEnd, b, q, bEnd, n);
    }
  }

  lemma TagAlike(a: Bytes, p: nat, aEnd: nat, b: Bytes, q: nat, bEnd: nat, n: nat)
    requires Alike(a, p, aEnd, b, q, bEnd, n)
    requires var r := TagAt(a, p, aEnd); (r.Tag? && r.next <= p + n) || (r.End? && p + n == aEnd)
    ensures var r := TagAt(a, p, aEnd); TagAt(b, q, bEnd) == if r.Tag? then r.(next := r.next - p + q) else r
  {
    hide Varint32At;
    Varint32Alike(a, p, aEnd, b, q, bEnd, n);
  }

  lemma {:induction false} LoopAlike(l: LType, st: State, a: Bytes, p: nat, aEnd: nat, b: Bytes, q: nat, bEnd: nat)
    requires l.Submessage? && TypeOk(l) && StateOk(l, st)
    requires p <= aEnd && q <= bEnd && aEnd - p == bEnd - q && Alike(a, p, aEnd, b, q, bEnd, aEnd - p) && aEnd <= |a|
    requires LoopAt(l, st, a, p, aEnd).Some?
    ensures bEnd <= |b| && LoopAt(l, st, b, q, bEnd) == LoopAt(l, st, a, p, aEnd)
    decreases l, 3, aEnd - p
  {
    hide TagAt;
    hide Find;
    hide MemberAt;
    hide SkipField;
    hide Alike;
    hide TypeOk;
    hide StateOk;
    var n := aEnd - p;
    AlikeRest(a, p, aEnd, b, q, bEnd, n, 0);
    if n > 0 {
      TagAlike(a, p, aEnd, b, q, bEnd, n);
      var t := TagAt(a, p, aEnd);
      if t.Tag? {
        AlikeRest(a, p, aEnd, b, q, bEnd, n, t.next - p);
        var r := FieldEnd(l, st, t, a, aEnd).value;
        FieldAlike(l, st, t, a, p, aEnd, b, q, bEnd, n);
        AlikeRest(a, p, aEnd, b, q, bEnd, n, r.1 - p);
        LoopAlike(l, r.0, a, r.1, aEnd, b, r.1 - p + q, bEnd);
      }
    }
  }

  /** The field behind a tag: the state it leaves and where it ends. */
  function FieldEnd(l: LType, st: State, t: TagRead, data: Bytes, limit: nat): (r: Option<(State, nat)>)
    requires l.Submessage? && TypeOk(l) && StateOk(l, st) && t.Tag? && t.next <= limit <= |data|
    ensures r.Some? ==> t.next <= r.value.1 <= limit && StateOk(l, r.value.0)
  {
    match Find(l.members, t.tag, 0)
    case None => (match SkipField(t.wire, data, t.next, limit) case None => None case Some(r) => Some((st, r)))
    case Some(ij) => MemberAt(l, st, ij.0, ij.1, t.wire, data, t.next, limit)
  }

  lemma FieldAlike(l: LType, st: State, t: TagRead, a: Bytes, p: nat, aEnd: nat, b: Bytes, q: nat, bEnd: nat, n: nat)
    requires l.Submessage? && TypeOk(l) && StateOk(l, st) && t.Tag? && p < t.next <= p + n
             && Alike(a, p, aEnd, b, q, bEnd, n) && aEnd <= |a|
    requires t.next <= aEnd && var r := FieldEnd(l, st, t, a, aEnd); r.Some? && r.value.1 <= p + n
    ensures t.next - p + q <= bEnd <= |b|
    ensures var r := FieldEnd(l, st, t, a, aEnd).value;
            FieldEnd(l, st, t.(next := t.next - p + q), b, bEnd) == Some((r.0, r.1 - p + q))
    decreases l, 3, 0
  {
    hide Find;
    hide MemberAt;
    hide SkipField;
    hide Alike;
    hide TypeOk;
    hide StateOk;
    AlikeRest(a, p, aEnd, b, q, bEnd, n, t.next - p);
    match Find(l.members, t.tag, 0)
    case None => SkipAlike(t.wire, a, t.next, aEnd, b, t.next - p + q, bEnd, n - (t.next - p));
    case Some(ij) => MemberAlike(l, st, ij.0, ij.1, t.wire, a, t.next, aEnd, b, t.next - p + q, bEnd, n - (t.next - p));
  }

  lemma MessageAlike(l: LType, slots: seq<Slot>, a: Bytes, p: nat, aEnd: nat, b: Bytes, q: nat, bEnd: nat)
    requires l.Submessage? && TypeOk(l) && SlotsOk(l, slots)
    requires p <= aEnd && q <= bEnd && aEnd - p == bEnd - q && Alike(a, p, aEnd, b, q, bEnd, aEnd - p) && aEnd <= |a|
    requires MessageAt(l, slots, a, p, aEnd).Some?
    ensures bEnd <= |b| && MessageAt(l, slots, b, q, bEnd) == MessageAt(l, slots, a, p, aEnd)
    decreases l, 4, 0
  {
    hide LoopAt;
    hide Alike;
    hide TypeOk;
    LoopAlike(l, State(slots, None, 0, {}), a, p, aEnd, b, q, bEnd);
  }

  // ---- boundaries ----

  /** The loop of pb_decode_noinit, begun at p, comes to q between two fields. */
  predicate Reaches(l: LType, st: State, data: Bytes, p: nat, limit: nat, q: nat)
    requires l.Submessage? && TypeOk(l) && StateOk(l, st) && p <= limit <= |data|
    decreases limit - p
  {
    p == q || (p < limit && p < q && var t := TagAt(data, p, limit);
      t.Tag? && var r := FieldEnd(l, st, t, data, limit); r.Some? && Reaches(l, r.value.0, data, r.value.1, limit, q))
  }

  /** One turn of the loop. */
  lemma ReachesTurn(l: LType, st: State, data: Bytes, p: nat, limit: nat, q: nat)
    requires l.Submessage? && TypeOk(l) && StateOk(l, st) && p <= limit <= |data| && p != q
             && Reaches(l, st, data, p, limit, q)
    ensures p < q && p < limit && TagAt(data, p, limit).Tag?
            && FieldEnd(l, st, TagAt(data, p, limit), data, limit).Some?
    ensures var r := FieldEnd(l, st, TagAt(data, p, limit), data, limit).value;
            && r.1 <= q && Reaches(l, r.0, data, r.1, limit, q)
            && LoopAt(l, st, data, p, limit) == LoopAt(l, r.0, data, r.1, limit)
  {
    hide TagAt;
    hide Find;
    hide MemberAt;
    hide SkipField;
    hide TypeOk;
    hide StateOk;
    var r := FieldEnd(l, st, TagAt(data, p, limit), data, limit).value;
    ReachesUp(l, r.0, data, r.1, limit, q);
  }

  lemma ReachesUp(l: LType, st: State, data: Bytes, p: nat, limit: nat, q: nat)
    requires l.Submessage? && TypeOk(l) && StateOk(l, st) && p <= limit <= |data| && Reaches(l, st, data, p, limit, q)
    ensures p <= q
  {
  }

  /** The state of the loop at a boundary. */
  function StateAt(l: LType, st: State, data: Bytes, p: nat, limit: nat, q: nat): (r: State)
    requires l.Submessage? && TypeOk(l) && StateOk(l, st) && p <= limit <= |data| && Reaches(l, st, data, p, limit, q)
    ensures StateOk(l, r)
    decreases limit - p
  {
    if p == q then st else
      var r := FieldEnd(l, st, TagAt(data, p, limit), data, limit).value;
      StateAt(l, r.0, data, r.1, limit, q)
  }

  /** A boundary is one in every stream that has the same bytes up to there, and what comes
      behind it decides how the loop goes on. */
  lemma {:induction false} BoundaryAlike(l: LType, st: State, a: Bytes, p: nat, aEnd: nat, q: nat, b: Bytes, p': nat,
                                         bEnd: nat)
    requires l.Submessage? && TypeOk(l) && StateOk(l, st) && p <= q <= aEnd <= |a| && Reaches(l, st, a, p, aEnd, q)
    requires Alike(a, p, aEnd, b, p', bEnd, q - p)
    ensures q - p + p' <= bEnd <= |b| && Reaches(l, st, b, p', bEnd, q - p + p')
    ensures StateAt(l, st, b, p', bEnd, q - p + p') == StateAt(l, st, a, p, aEnd, q)
    ensures LoopAt(l, st, b, p', bEnd) == LoopAt(l, StateAt(l, st, a, p, aEnd, q), b, q - p + p', bEnd)
    decreases q - p
  {
    hide LoopAt;
    hide TagAt;
    hide FieldEnd;
    hide TypeOk;
    hide StateOk;
    hide Alike;
    AlikeRest(a, p, aEnd, b, p', bEnd, q - p, 0);
    if p < q {
      var t := TagAt(a, p, aEnd);
      ReachesTurn(l, st, a, p, aEnd, q);
      var r := FieldEnd(l, st, t, a, aEnd).value;
      TagAlike(a, p, aEnd, b, p', bEnd, q - p);
      FieldAlike(l, st, t, a, p, aEnd, b, p', bEnd, q - p);
      AlikeRest(a, p, aEnd, b, p', bEnd, q - p, r.1 - p);
      LoopTurn(l, st, b, p', bEnd);
      BoundaryAlike(l, r.0, a, r.1, aEnd, q, b, r.1 - p + p', bEnd);
    }
  }

  lemma LoopTurn(l: LType, st: State, data: Bytes, p: nat, limit: nat)
    requires l.Submessage? && TypeOk(l) && StateOk(l, st) && p < limit <= |data|
    requires TagAt(data, p, limit).Tag? && FieldEnd(l, st, TagAt(data, p, limit), data, limit).Some?
    ensures var r := FieldEnd(l, st, TagAt(data, p, limit), data, limit).value;
            LoopAt(l, st, data, p, limit) == LoopAt(l, r.0, data, r.1, limit)
  {
    hide TagAt;
    hide Find;
    hide MemberAt;
    hide SkipField;
    hide TypeOk;
    hide StateOk;
  }

  lemma LoopSame(l: LType, st: State, a: Bytes, p: nat, aEnd: nat, b: Bytes, q: nat, bEnd: nat)
    requires l.Submessage? && TypeOk(l) && StateOk(l, st)
    requires p <= aEnd && q <= bEnd && aEnd - p == bEnd - q && Alike(a, p, aEnd, b, q, bEnd, aEnd - p) && aEnd <= |a|
             && bEnd <= |b|
    ensures LoopAt(l, st, b, q, bEnd) == LoopAt(l, st, a, p, aEnd)
  {
    hide LoopAt;
    hide TypeOk;
    hide StateOk;
    if LoopAt(l, st, a, p, aEnd).Some? { LoopAlike(l, st, a, p, aEnd, b, q, bEnd); }
    if LoopAt(l, st, b, q, bEnd).Some? { LoopAlike(l, st, b, q, bEnd, a, p, aEnd); }
  }

  /** The loop comes from the start of this message to position n, between two fields. */
  predicate IsBoundary(l: LType, was: Val, data: Bytes, n: nat)
    requires l.Submessage? && TypeOk(l) && ValOk(l, 0, was)
  {
    n <= |data| && Reaches(l, Start(l, was), data, 0, |data|, n)
  }

  function Start(l: LType, was: Val): (st: State)
    requires l.Submessage? && TypeOk(l) && ValOk(l, 0, was)
    ensures StateOk(l, st)
  { State(Defaults(l, was.slots), None, 0, {}) }

  lemma Pieces(a: Bytes, u: Bytes, b: Bytes)
    ensures Alike(a + b, 0, |a + b|, a + u + b, 0, |a + u + b|, |a|) && At(a + u + b, |a|, |a + u + b|, u)
    ensures Alike(a + b, |a|, |a + b|, a + u + b, |a| + |u|, |a + u + b|, |b|)
  {
    assert (a + b)[0..0 + |a|] == a == (a + u + b)[0..0 + |a|];
    assert (a + b)[|a|..|a| + |b|] == b == (a + u + b)[|a| + |u|..|a| + |u| + |b|];
  }

  // ---- boundaries of a message that has become longer ----

  lemma {:induction false} ReachesOn(l: LType, st: State, data: Bytes, p: nat, limit: nat, q: nat, r: nat)
    requires l.Submessage? && TypeOk(l) && StateOk(l, st) && p <= q <= limit <= |data|
             && Reaches(l, st, data, p, limit, q)
    ensures q <= r && Reaches(l, st, data, p, limit, r)
            <==> Reaches(l, StateAt(l, st, data, p, limit, q), data, q, limit, r)
    ensures q <= r && Reaches(l, st, data, p, limit, r) ==>
              StateAt(l, st, data, p, limit, r) == StateAt(l, StateAt(l, st, data, p, limit, q), data, q, limit, r)
    decreases limit - p
  {
    hide TagAt;
    hide FieldEnd;
    hide TypeOk;
    hide StateOk;
    if p < q {
      ReachesTurn(l, st, data, p, limit, q);
      var next := FieldEnd(l, st, TagAt(data, p, limit), data, limit).value;
      ReachesOn(l, next.0, data, next.1, limit, q, r);
    }
    if Reaches(l, StateAt(l, st, data, p, limit, q), data, q, limit, r) {
      ReachesUp(l, StateAt(l, st, data, p, limit, q), data, q, limit, r);
    }
  }

  lemma UnknownReached(l: LType, u: Unknown, st: State, data: Bytes, p: nat, limit: nat)
    requires l.Submessage? && TypeOk(l) && StateOk(l, st) && IsUnknown(l, u)
    requires At(data, p, limit, UnknownBytes(u)) && |data| < P32
    ensures p + |UnknownBytes(u)| <= limit <= |data| && Reaches(l, st, data, p, limit, p + |UnknownBytes(u)|)
    ensures StateAt(l, st, data, p, limit, p + |UnknownBytes(u)|) == st
  {
    hide TagAt;
    hide Find;
    hide MemberAt;
    hide TypeOk;
    hide StateOk;
    hide SkipField;
    hide TagBytes;
    hide PayloadBytes;
    hide WireOk;
    hide At;
    var tag := TagBytes(WireOf(u.payload), u.tag);
    AtFits(data, p, limit, UnknownBytes(u));
    AtParts(data, p, limit, tag, PayloadBytes(u.payload));
    TagBack(data, p, limit, WireOf(u.payload), u.tag);
    TagNotEmpty(WireOf(u.payload), u.tag);
    PayloadPassed(u.payload, data, p + |tag|, limit);
  }

  lemma {:induction false} AllReached(l: LType, us: seq<Unknown>, n: nat, st: State, data: Bytes, p: nat, limit: nat)
    requires l.Submessage? && TypeOk(l) && StateOk(l, st) && n <= |us| && forall u :: u in us ==> IsUnknown(l, u)
    requires At(data, p, limit, AllBytes(us, n)) && |data| < P32
    ensures p + |AllBytes(us, n)| <= limit <= |data| && Reaches(l, st, data, p, limit, p + |AllBytes(us, n)|)
    ensures StateAt(l, st, data, p, limit, p + |AllBytes(us, n)|) == st
    decreases n
  {
    hide TypeOk;
    hide StateOk;
    hide UnknownBytes;
    hide IsUnknown;
    hide At;
    hide TagAt;
    hide FieldEnd;
    AtFits(data, p, limit, AllBytes(us, n));
    if n > 0 {
      var q := p + |AllBytes(us, n - 1)|;
      AtParts(data, p, limit, AllBytes(us, n - 1), UnknownBytes(us[n - 1]));
      AllReached(l, us, n - 1, st, data, p, limit);
      UnknownReached(l, us[n - 1], st, data, q, limit);
      ReachesOn(l, st, data, p, limit, q, q + |UnknownBytes(us[n - 1])|);
    }
  }

  /** With unknown fields put in at a boundary, the boundaries before it are where they were,
      and those behind it have moved up. */
  lemma BoundariesKept(l: LType, was: Val, a: Bytes, b: Bytes, us: seq<Unknown>, n: nat)
    requires l.Submessage? && TypeOk(l) && ValOk(l, 0, was) && forall u :: u in us ==> IsUnknown(l, u)
    requires IsBoundary(l, was, a + b, |a|) && |a + AllBytes(us, |us|) + b| < P32
    ensures var more := a + AllBytes(us, |us|) + b;
            && (n <= |a| ==> (IsBoundary(l, was, more, n) <==> IsBoundary(l, was, a + b, n)))
            && (n >= |a| ==> (IsBoundary(l, was, more, n + |AllBytes(us, |us|)|) <==> IsBoundary(l, was, a + b, n)))
  {
    hide Reaches;
    hide StateAt;
    hide Alike;
    hide LoopAt;
    hide TypeOk;
    hide ValOk;
    hide StateOk;
    hide At;
    hide Defaults;
    hide AllBytes;
    hide IsUnknown;
    var x, u := Start(l, was), AllBytes(us, |us|);
    var data, more := a + b, a + u + b;
    Pieces(a, u, b);
    if n <= |a| {
      AlikeFirst(data, 0, |data|, more, 0, |more|, |a|, n);
      if IsBoundary(l, was, data, n) { BoundaryAlike(l, x, data, 0, |data|, n, more, 0, |more|); }
      if IsBoundary(l, was, more, n) { BoundaryAlike(l, x, more, 0, |more|, n, data, 0, |data|); }
    }
    if |a| <= n <= |data| {
      var st := StateAt(l, x, data, 0, |data|, |a|);
      BoundaryAlike(l, x, data, 0, |data|, |a|, more, 0, |more|);
      AllReached(l, us, |us|, st, more, |a|, |more|);
      ReachesOn(l, x, more, 0, |more|, |a|, n + |u|);
      ReachesOn(l, st, more, |a|, |more|, |a| + |u|, n + |u|);
      ReachesOn(l, x, data, 0, |data|, |a|, n);
      AlikeFirst(data, |a|, |data|, more, |a| + |u|, |more|, |b|, n - |a|);
      if Reaches(l, st, data, |a|, |data|, n) { BoundaryAlike(l, st, data, |a|, |data|, n, more, |a| + |u|, |more|); }
      if Reaches(l, st, more, |a| + |u|, |more|, n + |u|) {
        BoundaryAlike(l, st, more, |a| + |u|, |more|, n + |u|, data, |a|, |data|);
      }
    }
  }

  /** Whoever wrote the message, whether it can be decoded or not: unknown fields put in at a
      boundary do not change what pb_decode makes of it. */
  lemma UnknownFieldsPutIn(l: LType, was: Val, a: Bytes, b: Bytes, us: seq<Unknown>)
    requires l.Submessage? && TypeOk(l) && ValOk(l, 0, was) && forall u :: u in us ==> IsUnknown(l, u)
    requires IsBoundary(l, was, a + b, |a|) && |a + AllBytes(us, |us|) + b| < P32
    ensures Decoded(l, was, a + AllBytes(us, |us|) + b) == Decoded(l, was, a + b)
  {
    hide Reaches;
    hide StateAt;
    hide Alike;
    hide LoopAt;
    hide TypeOk;
    hide ValOk;
    hide StateOk;
    hide At;
    hide Defaults;
    hide AllBytes;
    hide IsUnknown;
    var x, u := Start(l, was), AllBytes(us, |us|);
    var data, more := a + b, a + u + b;
    Pieces(a, u, b);
    var st := StateAt(l, x, data, 0, |data|, |a|);
    BoundaryAlike(l, x, data, 0, |data|, |a|, data, 0, |data|) by { Pieces(a, [], b); assert a + [] + b == data; }
    BoundaryAlike(l, x, data, 0, |data|, |a|, more, 0, |more|);
    AllPassed(l, us, |us|, st, more, |a|, |more|);
    LoopSame(l, st, data, |a|, |data|, more, |a| + |u|, |more|);
  }
}
