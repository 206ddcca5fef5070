/** Decoding what was encoded gives the message back. */
module NanopbRoundTrip {
  import opened InternalKeys
  import opened Coding
  import opened NanopbMessages
  import opened NanopbDecode
  import Encoder = NanopbEncode
  import Decoder = NanopbRead

  // ---- numbers ----

  ghost predicate At(data: Bytes, p: nat, limit: nat, bs: Bytes) {
    p + |bs| <= limit <= |data| && data[p..p + |bs|] == bs
  }

  lemma AtParts(data: Bytes, p: nat, limit: nat, a: Bytes, b: Bytes)
    requires At(data, p, limit, a + b)
    ensures At(data, p, limit, a) && At(data, p + |a|, limit, b)
  {
    assert data[p..p + |a|] == data[p..p + |a + b|][..|a|];
    assert data[p + |a|..p + |a| + |b|] == data[p..p + |a + b|][|a|..];
  }

  lemma Varint64Back(data: Bytes, p: nat, limit: nat, v: Word64)
    requires At(data, p, limit, Varint(v))
    ensures Varint64At(data, p, limit) == Some((v, p + |Varint(v)|))
  {
    Varint64Fits(v);
    DecodeEncoded(data, p, limit, v, 10);
  }

  lemma RestStep(data: Bytes, p: nat, limit: nat, bitpos: nat, m: nat, result: Word)
    requires p < limit <= |data| && data[p] >= 128 && bitpos < 32 && result + Shifted(data[p] - 128, m) < P32
    ensures Varint32Rest(data, p, limit, bitpos, m, result)
         == Varint32Rest(data, p + 1, limit, bitpos + 7, 128 * m, result + Shifted(data[p] - 128, m))
  {
    hide Shifted;
    assert data[p] % 128 == data[p] - 128;
  }

  lemma RestEnd(data: Bytes, p: nat, limit: nat, bitpos: nat, m: nat, result: Word)
    requires p < limit <= |data| && data[p] < 128 && bitpos < 32 && (bitpos == 28 ==> data[p] < 16)
             && result + Shifted(data[p], m) < P32
    ensures Varint32Rest(data, p, limit, bitpos, m, result) == Some((result + Shifted(data[p], m), p + 1))
  {
    hide Shifted;
    assert data[p] % 128 == data[p];
  }

  /** The digits that are left, moved up. */
  lemma DigitFits(result: nat, m: nat, w: nat)
    requires result < m && result + Shifted(w, m) < P32
    ensures result + Shifted(w % 128, m) < 128 * m && result + Shifted(w % 128, m) < P32
    ensures result + Shifted(w % 128, m) + Shifted(w / 128, 128 * m) == result + Shifted(w, m)
  {
    var digit, rest := w % 128, w / 128;
    MoreDigits(result, m, digit, rest);
    AtMostTimes(m, digit);
  }

  lemma AtMostTimes(m: nat, digit: nat)
    requires digit < 128
    ensures Shifted(digit, m) <= 127 * m
  {
    assert m * (127 - digit) >= 0;
  }

  lemma FourBits(result: nat, w: nat)
    requires result + Shifted(w, 0x1000_0000) < P32
    ensures w < 16
  {
  }

  /** The bytes after the first, one to four of them. */
  lemma {:induction false} Varint32RestBack(data: Bytes, p: nat, limit: nat, k: nat, m: nat, result: Word, w: nat)
    requires At(data, p, limit, Varint(w)) && 1 <= k <= 4 && result < m && result + Shifted(w, m) < P32
    requires m == if k == 1 then 128 else if k == 2 then 0x4000 else if k == 3 then 0x20_0000 else 0x1000_0000
    ensures Varint32Rest(data, p, limit, 7 * k, m, result) == Some((result + Shifted(w, m), p + |Varint(w)|))
    decreases 4 - k
  {
    hide Varint32Rest;
    hide Shifted;
    hide At;
    hide Varint;
    FirstByte(data, p, limit, w);
    if k == 4 { FourBits(result, w); }
    if w >= 128 {
      DigitFits(result, m, w);
      RestStep(data, p, limit, 7 * k, m, result);
      Varint32RestBack(data, p + 1, limit, k + 1, 128 * m, result + Shifted(w % 128, m), w / 128);
    } else {
      RestEnd(data, p, limit, 7 * k, m, result);
    }
  }

  lemma FirstByte(data: Bytes, p: nat, limit: nat, w: nat)
    requires At(data, p, limit, Varint(w))
    ensures p < limit <= |data|
    ensures w < 128 ==> data[p] == w && |Varint(w)| == 1
    ensures w >= 128 ==>
              data[p] == w % 128 + 128 && At(data, p + 1, limit, Varint(w / 128))
              && |Varint(w)| == 1 + |Varint(w / 128)|
  {
    assert data[p..p + |Varint(w)|][0] == data[p];
    if w >= 128 { AtParts(data, p, limit, [w % 128 + 128], Varint(w / 128)); }
  }

  lemma Varint32Back(data: Bytes, p: nat, limit: nat, v: Word)
    requires At(data, p, limit, Varint(v))
    ensures Varint32At(data, p, limit) == Some((v, p + |Varint(v)|))
  {
    FirstByte(data, p, limit, v);
    if v >= 128 { Varint32RestBack(data, p + 1, limit, 1, 128, v % 128, v / 128); }
  }

  lemma TagBack(data: Bytes, p: nat, limit: nat, wire: nat, tag: Word)
    requires wire < 8 && 0 < tag < MAX_TAG && At(data, p, limit, TagBytes(wire, tag))
    ensures TagAt(data, p, limit) == Tag(wire, tag, p + |TagBytes(wire, tag)|)
  {
    Varint32Back(data, p, limit, tag * 8 + wire);
  }

  lemma RawBack(data: Bytes, p: nat, limit: nat, bs: Bytes)
    requires At(data, p, limit, bs)
    ensures RawAt(data, p, limit, |bs|) == Some((bs, p + |bs|))
  {
  }

  /** Two's complement, cut to 32 bits and extended again. */
  lemma SignBack(n: int)
    requires -P63 <= n < P63
    ensures 0 <= Unsigned64(n) < P64 && Signed64(Unsigned64(n)) == n
    ensures -P31 <= n < P31 ==> Signed32(Low32(Unsigned64(n))) == n
  {
  }

  lemma ZigZagBack(n: int)
    requires -P63 <= n < P63
    ensures var z := ZigZag(n); z < P64 && (if z % 2 == 1 then -(z / 2) - 1 else z / 2) == n
  {
  }

  lemma VarintNumBack(l: LType, size: nat, n: int, u: Word64, data: Bytes, p: nat, limit: nat)
    requires (l.SignedVarint? || l.ZigZagVarint? || l.UnsignedVarint?) && NumFits(l, size, n)
             && At(data, p, limit, Varint(u))
    requires u == if l.SignedVarint? then Unsigned64(n) else if l.ZigZagVarint? then ZigZag(n) else n
    ensures NumAt(l, size, data, p, limit) == Some((n, p + |Varint(u)|))
  {
    hide Varint;
    hide Varint64At;
    hide Low32;
    Varint64Back(data, p, limit, u);
    if l.SignedVarint? { SignBack(n); }
    if l.ZigZagVarint? { ZigZagBack(n); }
    hide Unsigned64;
    hide ZigZag;
    hide Signed64;
    hide Signed32;
  }

  lemma FixedNumBack(l: LType, size: nat, n: int, data: Bytes, p: nat, limit: nat)
    requires (l.Fixed4? || l.Fixed8?) && NumFits(l, size, n) && At(data, p, limit, NumBytes(l, size, n))
    ensures NumAt(l, size, data, p, limit) == Some((n, p + |NumBytes(l, size, n)|))
  {
    RawBack(data, p, limit, NumBytes(l, size, n));
    if l.Fixed4? { Fixed32RoundTrip(n); } else { Fixed64RoundTrip(n); }
    hide Fixed32;
    hide Fixed64;
    hide DecodeFixed32;
    hide DecodeFixed64;
  }

  lemma NumBack(l: LType, size: nat, n: int, data: Bytes, p: nat, limit: nat)
    requires Packable(l) && NumFits(l, size, n) && At(data, p, limit, NumBytes(l, size, n))
    ensures NumAt(l, size, data, p, limit) == Some((n, p + |NumBytes(l, size, n)|))
  {
    hide Varint;
    hide Varint32At;
    hide At;
    if l.Bool? {
      Varint32Back(data, p, limit, n);
    } else if l.Fixed4? || l.Fixed8? {
      FixedNumBack(l, size, n, data, p, limit);
    } else {
      SignBack(if l.SignedVarint? then n else 0);
      ZigZagBack(if l.ZigZagVarint? then n else 0);
      VarintNumBack(l, size, n, if l.SignedVarint? then Unsigned64(n) else if l.ZigZagVarint? then ZigZag(n)
                    else n, data, p, limit);
    }
  }

  // ---- what is kept ----

  /** Equal up to what follows a string's terminator and to the contents of absent fields. */
  predicate SameVal(l: LType, size: nat, a: Val, b: Val)
    requires ValOk(l, size, a) && ValOk(l, size, b)
    decreases l, 2
  {
    match l
    case CString => UpToZero(a.bs) == UpToZero(b.bs)
    case Submessage(_) => SameSlots(l, a.slots, b.slots)
    case _ => a == b
  }

  predicate SameSlots(l: LType, a: seq<Slot>, b: seq<Slot>)
    requires l.Submessage? && SlotsOk(l, a) && SlotsOk(l, b)
    decreases l, 1
  {
    forall i :: 0 <= i < |a| ==> SameSlot(l, i, a[i], b[i])
  }

  predicate SameSlot(l: LType, i: nat, a: Slot, b: Slot)
    requires l.Submessage? && i < |l.members| && SlotOk(l, i, a) && SlotOk(l, i, b)
    decreases l, 0
  {
    match l.members[i]
    case Plain(f, rule, arraySize) =>
      (match rule
       case Required => SameVal(f.ltype, f.dataSize, a.v, b.v)
       case Singular => SameVal(f.ltype, f.dataSize, a.v, b.v)
       case Optional => a.has == b.has && (a.has ==> SameVal(f.ltype, f.dataSize, a.o, b.o))
       case Repeated => a.count == b.count && SameItems(f, a.items, b.items, a.count)
       case FixedCount => SameItems(f, a.items, b.items, arraySize))
    case Union(fields) =>
      forall j :: 0 <= j < |fields| ==>
        (fields[j].tag == a.which <==> fields[j].tag == b.which)
        && (fields[j].tag == a.which ==> SameVal(fields[j].ltype, fields[j].dataSize, a.u, b.u))
  }

  predicate SameItems(f: Field, a: seq<Val>, b: seq<Val>, n: nat)
    requires |a| == |b|
    requires forall k :: 0 <= k < |a| ==> ValOk(f.ltype, f.dataSize, a[k]) && ValOk(f.ltype, f.dataSize, b[k])
    decreases f.ltype, 3
  {
    forall k :: 0 <= k < |a| && k < n ==> SameVal(f.ltype, f.dataSize, a[k], b[k])
  }

  /** Every string that is there has its terminator. */
  predicate Terminated(l: LType, size: nat, v: Val)
    requires ValOk(l, size, v)
    decreases l, 2
  {
    match l
    case CString => |UpToZero(v.bs)| < size
    case Submessage(_) => SlotsTerminated(l, v.slots, |v.slots|)
    case _ => true
  }

  predicate SlotsTerminated(l: LType, slots: seq<Slot>, n: nat)
    requires l.Submessage? && SlotsOk(l, slots) && n <= |slots|
    decreases l, 1
  {
    forall i :: 0 <= i < n ==> SlotTerminated(l, i, slots[i])
  }

  predicate SlotTerminated(l: LType, i: nat, s: Slot)
    requires l.Submessage? && i < |l.members| && SlotOk(l, i, s)
    decreases l, 0
  {
    match l.members[i]
    case Plain(f, rule, arraySize) =>
      (match rule
       case Required => Terminated(f.ltype, f.dataSize, s.v)
       case Singular => IsDefault(f.ltype, f.dataSize, s.v) || Terminated(f.ltype, f.dataSize, s.v)
       case Optional => s.has ==> Terminated(f.ltype, f.dataSize, s.o)
       case Repeated => ItemsTerminated(f, s.items, s.count)
       case FixedCount => ItemsTerminated(f, s.items, arraySize))
    case Union(fields) => forall j :: 0 <= j < |fields| && fields[j].tag == s.which ==>
          Terminated(fields[j].ltype, fields[j].dataSize, s.u)
  }

  predicate ItemsTerminated(f: Field, items: seq<Val>, n: nat)
    requires forall k :: 0 <= k < |items| ==> ValOk(f.ltype, f.dataSize, items[k])
    decreases f.ltype, 3
  {
    forall k :: 0 <= k < |items| && k < n ==> Terminated(f.ltype, f.dataSize, items[k])
  }

  // ---- one item ----

  lemma {:induction false} UpToZeroOf(bs: Bytes, more: Bytes)
    requires 0 !in bs
    ensures UpToZero(bs + [0] + more) == bs
  {
    if bs == [] {
      assert (bs + [0] + more)[0] == 0;
    } else {
      assert bs[0] in bs && forall b :: b in bs[1..] ==> b in bs;
      UpToZeroOf(bs[1..], more);
      assert (bs + [0] + more)[1..] == bs[1..] + [0] + more;
    }
  }

  /** The length and the bytes behind it. */
  lemma DelimitedBack(data: Bytes, p: nat, limit: nat, bs: Bytes)
    requires At(data, p, limit, Delimited(bs)) && |data| < P32
    ensures Varint32At(data, p, limit) == Some((|bs|, p + |Varint(|bs|)|))
    ensures At(data, p + |Varint(|bs|)|, limit, bs)
    ensures SubstreamAt(data, p, limit) == Some((p + |Varint(|bs|)|, p + |Delimited(bs)|))
  {
    hide Varint;
    hide Varint32At;
    AtParts(data, p, limit, Varint(|bs|), bs);
    Varint32Back(data, p, limit, |bs|);
  }

  lemma StringBack(size: nat, v: Val, was: Val, data: Bytes, p: nat, limit: nat) returns (r: Val)
    requires ValOk(CString, size, v) && ValOk(CString, size, was) && |data| < P32
    requires At(data, p, limit, Delimited(UpToZero(v.bs)))
    ensures Terminated(CString, size, v) ==> (ValOk(CString, size, r) && SameVal(CString, size, v, r)
            && LeafAt(CString, size, was, data, p, limit) == Some((r, p + |Delimited(UpToZero(v.bs))|)))
    ensures !Terminated(CString, size, v) ==> LeafAt(CString, size, was, data, p, limit) == None
  {
    hide Varint32At;
    hide Varint;
    hide UpToZero;
    hide RawAt;
    hide At;
    var bs := UpToZero(v.bs);
    DelimitedBack(data, p, limit, bs);
    RawBack(data, p + |Varint(|bs|)|, limit, bs);
    r := v;
    if |bs| < size {
      r := Raw(bs + [0] + was.bs[|bs| + 1..]);
      UpToZeroOf(bs, was.bs[|bs| + 1..]);
    }
  }

  lemma BytesBack(l: LType, size: nat, v: Val, was: Val, data: Bytes, p: nat, limit: nat)
    requires (l.BytesArray? || l.FixedBytes?) && ValOk(l, size, v) && ValOk(l, size, was) && |data| < P32
    requires ValBytes(l, size, v).Some? && At(data, p, limit, Delimited(v.bs))
    ensures LeafAt(l, size, was, data, p, limit) == Some((v, p + |Delimited(v.bs)|))
  {
    hide Varint32At;
    hide Varint;
    DelimitedBack(data, p, limit, v.bs);
    RawBack(data, p + |Varint(|v.bs|)|, limit, v.bs);
    if l.FixedBytes? && size == 0 { assert v.bs == Zeros(0); }
  }

  lemma NumLeafBack(l: LType, size: nat, v: Val, was: Val, data: Bytes, p: nat, limit: nat)
    requires Packable(l) && ValOk(l, size, v) && ValOk(l, size, was)
    requires At(data, p, limit, NumBytes(l, size, v.n))
    ensures LeafAt(l, size, was, data, p, limit) == Some((v, p + |NumBytes(l, size, v.n)|))
  {
    hide NumAt;
    hide NumBytes;
    hide NumFits;
    hide At;
    NumBack(l, size, v.n, data, p, limit);
  }

  lemma LeafBack(l: LType, size: nat, v: Val, was: Val, data: Bytes, p: nat, limit: nat) returns (r: Val)
    requires !l.Submessage? && ValOk(l, size, v) && ValOk(l, size, was) && |data| < P32
    requires ValBytes(l, size, v).Some? && At(data, p, limit, ValBytes(l, size, v).value)
    ensures Terminated(l, size, v) ==> (ValOk(l, size, r) && SameVal(l, size, v, r)
            && LeafAt(l, size, was, data, p, limit) == Some((r, p + |ValBytes(l, size, v).value|)))
    ensures !Terminated(l, size, v) ==> LeafAt(l, size, was, data, p, limit) == None
  {
    hide LeafAt;
    hide NumBytes;
    hide Delimited;
    hide At;
    r := v;
    if l.CString? { r := StringBack(size, v, was, data, p, limit); }
    else if l.BytesArray? || l.FixedBytes? { BytesBack(l, size, v, was, data, p, limit); }
    else { NumLeafBack(l, size, v, was, data, p, limit); }
  }

  // ---- structs as pb_message_set_to_defaults leaves them ----

  ghost predicate Blank(l: LType, size: nat, v: Val)
    requires ValOk(l, size, v)
    decreases l, 2
  {
    l.Submessage? ==> SlotsBlank(l, v.slots)
  }

  ghost predicate SlotsBlank(l: LType, slots: seq<Slot>)
    requires l.Submessage? && SlotsOk(l, slots)
    decreases l, 1
  {
    forall i :: 0 <= i < |slots| ==> SlotBlank(l, i, slots[i])
  }

  ghost predicate SlotBlank(l: LType, i: nat, s: Slot)
    requires l.Submessage? && i < |l.members| && SlotOk(l, i, s)
    decreases l, 0
  {
    match l.members[i]
    case Plain(f, rule, _) =>
      (match rule
       case Required => Blank(f.ltype, f.dataSize, s.v)
       case Optional => !s.has && Blank(f.ltype, f.dataSize, s.o)
       case Singular => AsAbsent(f.ltype, f.dataSize, s.v)
       case Repeated => s.count == 0
       case FixedCount => true)
    case Union(_) => s.which == 0
  }

  /** The value of a singular field that is not there. */
  ghost predicate AsAbsent(l: LType, size: nat, v: Val)
    requires ValOk(l, size, v)
    decreases l, 2
  {
    if l.Submessage? then SlotsBlank(l, v.slots) else l.FixedBytes? || IsDefault(l, size, v)
  }

  lemma {:induction false} DefaultsAreBlank(l: LType, slots: seq<Slot>)
    requires l.Submessage? && TypeOk(l) && SlotsOk(l, slots)
    ensures SlotsBlank(l, Defaults(l, slots))
    decreases l, 1
  {
    forall i | 0 <= i < |slots| ensures SlotBlank(l, i, DefaultSlot(l, i, slots[i])) {
      assert MemberOk(l, i);
      DefaultIsBlank(l, i, slots[i]);
    }
  }

  lemma {:induction false} DefaultIsBlank(l: LType, i: nat, s: Slot)
    requires l.Submessage? && TypeOk(l) && i < |l.members| && SlotOk(l, i, s) && MemberOk(l, i)
    ensures SlotBlank(l, i, DefaultSlot(l, i, s))
    decreases l, 0
  {
    if l.members[i].Plain? {
      var f := l.members[i].f;
      if l.members[i].rule.Optional? { DefaultValIsBlank(f, s.o); }
      else if l.members[i].rule.Required? || l.members[i].rule.Singular? { DefaultValIsBlank(f, s.v); }
    }
  }

  lemma {:induction false} DefaultValIsBlank(f: Field, was: Val)
    requires FieldOk(f) && ValOk(f.ltype, f.dataSize, was)
    ensures Blank(f.ltype, f.dataSize, DefaultVal(f, was))
    ensures f.init == None ==> AsAbsent(f.ltype, f.dataSize, DefaultVal(f, was))
    decreases f.ltype, 2
  {
    if f.ltype.Submessage? { DefaultsAreBlank(f.ltype, was.slots); }
  }

  /** A singular field that is not written is there again. */
  lemma {:induction false} AbsentSame(l: LType, size: nat, v: Val, d: Val)
    requires TypeOk(l) && ValOk(l, size, v) && ValOk(l, size, d) && IsDefault(l, size, v) && AsAbsent(l, size, d)
    ensures SameVal(l, size, v, d)
    decreases l, 2
  {
    if l.Submessage? {
      assert SlotsDefault(l, v.slots) && SlotsBlank(l, d.slots);
      forall i | 0 <= i < |v.slots| ensures SameSlot(l, i, v.slots[i], d.slots[i]) {
        assert MemberOk(l, i) && SlotIsDefault(l, i, v.slots[i]) && SlotBlank(l, i, d.slots[i]);
        AbsentSlotSame(l, i, v.slots[i], d.slots[i]);
      }
    }
  }

  lemma {:induction false} AbsentSlotSame(l: LType, i: nat, v: Slot, d: Slot)
    requires l.Submessage? && i < |l.members| && SlotOk(l, i, v) && SlotOk(l, i, d)
    requires SlotIsDefault(l, i, v) && SlotBlank(l, i, d) && MemberOk(l, i)
    ensures SameSlot(l, i, v, d)
    decreases l, 0
  {
    if l.members[i].Plain? && l.members[i].rule.Singular? {
      AbsentSame(l.members[i].f.ltype, l.members[i].f.dataSize, v.v, d.v);
    }
  }

  // ---- one turn of the loop ----

  /** The loop of pb_decode_noinit at a tag of this type. */
  function Turn(l: LType, st: State, i: nat, j: nat, wire: nat, data: Bytes, q: nat, limit: nat): Option<State>
    requires l.Submessage? && TypeOk(l) && StateOk(l, st) && i < |l.members| && HasField(l.members[i], j)
             && q <= limit <= |data|
  {
    match MemberAt(l, st, i, j, wire, data, q, limit) case None => None case Some(r) => LoopAt(l, r.0, data, r.1, limit)
  }

  lemma OneTurn(l: LType, st: State, i: nat, j: nat, wire: nat, tag: Word, data: Bytes, p: nat, limit: nat)
    requires l.Submessage? && TypeOk(l) && StateOk(l, st) && i < |l.members| && HasTag(l.members[i], j, tag)
    requires wire < 8 && 0 < tag < MAX_TAG && At(data, p, limit, TagBytes(wire, tag))
    ensures LoopAt(l, st, data, p, limit) == Turn(l, st, i, j, wire, data, p + |TagBytes(wire, tag)|, limit)
  {
    hide TagAt;
    hide Find;
    hide MemberAt;
    hide TypeOk;
    hide StateOk;
    TagBack(data, p, limit, wire, tag);
    FindBack(l, i, j, tag);
    TagNotEmpty(wire, tag);
  }

  lemma TagNotEmpty(wire: nat, tag: Word)
    requires wire < 8
    ensures |TagBytes(wire, tag)| > 0
  {
  }

  // ---- how far a message has come ----

  ghost predicate SlotsDone(l: LType, vs: seq<Slot>, ds: seq<Slot>, slots: seq<Slot>, n: nat)
    requires l.Submessage? && SlotsOk(l, vs) && SlotsOk(l, ds)
  {
    && SlotsOk(l, slots) && n <= |vs|
    && (forall i :: 0 <= i < n ==> SameSlot(l, i, vs[i], slots[i]))
    && forall i :: n <= i < |vs| ==> slots[i] == ds[i]
  }

  /** Exactly the tracked required fields among the first n members. */
  ghost predicate SeenAll(members: seq<Member>, seen: set<nat>, n: nat)
    requires n <= |members|
  {
    forall k: nat :: k in seen <==> k < RequiredBefore(members, n) && k < MAX_REQUIRED
  }

  /** What is seen once member n is done. */
  ghost function SeenNext(members: seq<Member>, seen: set<nat>, n: nat): set<nat>
    requires n < |members|
  {
    if IsRequired(members[n]) && RequiredBefore(members, n) < MAX_REQUIRED
    then seen + {RequiredBefore(members, n)} else seen
  }

  ghost predicate FixedDone(l: LType, st: State, n: nat)
    requires l.Submessage?
  {
    st.fixedField.Some? ==>
        IsFixed(l, st.fixedField.value) && st.fixedField.value < n
        && st.fixedSize == l.members[st.fixedField.value].arraySize
  }

  ghost predicate Progress(l: LType, vs: seq<Slot>, ds: seq<Slot>, st: State, n: nat)
    requires l.Submessage? && SlotsOk(l, vs) && SlotsOk(l, ds) && n <= |vs|
  {
    SlotsDone(l, vs, ds, st.slots, n) && FixedDone(l, st, n)
  }

  lemma OneSlotDone(l: LType, vs: seq<Slot>, ds: seq<Slot>, slots: seq<Slot>, n: nat, slot: Slot)
    requires l.Submessage? && SlotsOk(l, vs) && SlotsOk(l, ds) && n < |vs| && SlotsDone(l, vs, ds, slots, n)
    requires SlotOk(l, n, slot) && SameSlot(l, n, vs[n], slot)
    ensures SlotsDone(l, vs, ds, slots[n := slot], n + 1)
  {
    hide SlotOk;
    hide SameSlot;
  }

  predicate IsRequired(m: Member) { m.Plain? && m.rule.Required? }

  lemma OneMoreSeen(members: seq<Member>, seen: set<nat>, n: nat)
    requires n < |members| && SeenAll(members, seen, n)
    ensures SeenAll(members, SeenNext(members, seen, n), n + 1)
  {
  }

  /** Member n is done, in `slot`. */
  lemma OneSlotMore(l: LType, vs: seq<Slot>, ds: seq<Slot>, st: State, n: nat, slot: Slot, st': State)
    requires l.Submessage? && n < |l.members| && SlotsOk(l, vs) && SlotsOk(l, ds) && n < |vs|
             && Progress(l, vs, ds, st, n)
    requires SlotOk(l, n, slot) && SameSlot(l, n, vs[n], slot) && st'.slots == st.slots[n := slot]
    requires (st'.fixedField == st.fixedField && st'.fixedSize == st.fixedSize)
             || (IsFixed(l, n) && st'.fixedField == Some(n) && st'.fixedSize == l.members[n].arraySize)
    ensures Progress(l, vs, ds, st', n + 1)
  {
    hide SlotsDone;
    hide SlotsOk;
    hide SlotOk;
    hide SameSlot;
    OneSlotDone(l, vs, ds, st.slots, n, slot);
  }

  // ---- items, members and messages ----

  /** An item behind its tag. */
  lemma ValBack(f: Field, v: Val, was: Val, again: bool, data: Bytes, p: nat, limit: nat) returns (r: Val)
    requires FieldOk(f) && ValOk(f.ltype, f.dataSize, v) && ValOk(f.ltype, f.dataSize, was) && |data| < P32
    requires !again ==> Blank(f.ltype, f.dataSize, was)
    requires ValBytes(f.ltype, f.dataSize, v).Some? && At(data, p, limit, ValBytes(f.ltype, f.dataSize, v).value)
    ensures Terminated(f.ltype, f.dataSize, v) ==> (ValOk(f.ltype, f.dataSize, r) && SameVal(f.ltype, f.dataSize, v, r)
            && ValAt(f, was, again, data, p, limit) == Some((r, p + |ValBytes(f.ltype, f.dataSize, v).value|)))
    ensures !Terminated(f.ltype, f.dataSize, v) ==> ValAt(f, was, again, data, p, limit) == None
    decreases f.ltype, 7, 0
  {
    hide FieldOk;
    hide At;
    hide LeafAt;
    hide SameVal;
    hide Terminated;
    hide ValBytes;
    hide ValOk;
    hide Blank;
    if !f.ltype.Submessage? {
      r := LeafBack(f.ltype, f.dataSize, v, was, data, p, limit);
    } else {
      r := StructBack(f, v, was, again, data, p, limit);
    }
  }

  lemma StructBack(f: Field, v: Val, was: Val, again: bool, data: Bytes, p: nat, limit: nat) returns (r: Val)
    requires FieldOk(f) && f.ltype.Submessage? && ValOk(f.ltype, f.dataSize, v) && ValOk(f.ltype, f.dataSize, was)
             && |data| < P32
    requires !again ==> Blank(f.ltype, f.dataSize, was)
    requires ValBytes(f.ltype, f.dataSize, v).Some? && At(data, p, limit, ValBytes(f.ltype, f.dataSize, v).value)
    ensures Terminated(f.ltype, f.dataSize, v) ==> (ValOk(f.ltype, f.dataSize, r) && SameVal(f.ltype, f.dataSize, v, r)
            && ValAt(f, was, again, data, p, limit) == Some((r, p + |ValBytes(f.ltype, f.dataSize, v).value|)))
    ensures !Terminated(f.ltype, f.dataSize, v) ==> ValAt(f, was, again, data, p, limit) == None
    decreases f.ltype, 6, 0
  {
    hide MessageAt;
    hide SlotsOk;
    hide SlotsBytes;
    hide SameSlots;
    hide SlotsTerminated;
    hide SlotsBlank;
    hide Varint;
    hide Varint32At;
    hide TypeOk;
    var l := f.ltype;
    CountIs(l, v.slots);
    var bs := SlotsBytes(l, v.slots, |v.slots|).value;
    var from := if again then Defaults(l, was.slots) else was.slots;
    if again { DefaultsAreBlank(l, was.slots); }
    DelimitedBack(data, p, limit, bs);
    var q := p + |Varint(|bs|)|;
    Within(data, q, limit, bs);
    var slots := MessageBack(l, v.slots, from, data, q, q + |bs|);
    r := Struct(slots);
  }

  lemma CountIs(l: LType, slots: seq<Slot>)
    requires l.Submessage? && SlotsOk(l, slots)
    ensures |slots| == |l.members|
  {
  }

  lemma Within(data: Bytes, p: nat, limit: nat, bs: Bytes)
    requires At(data, p, limit, bs)
    ensures At(data, p, p + |bs|, bs)
  {
  }

  /** A whole message, from its first byte to its last. */
  lemma MessageBack(l: LType, vs: seq<Slot>, ds: seq<Slot>, data: Bytes, p: nat, limit: nat) returns (rs: seq<Slot>)
    requires l.Submessage? && TypeOk(l) && SlotsOk(l, vs) && SlotsOk(l, ds) && SlotsBlank(l, ds) && |data| < P32
    requires SlotsBytes(l, vs, |vs|).Some? && At(data, p, limit, SlotsBytes(l, vs, |vs|).value)
             && limit == p + |SlotsBytes(l, vs, |vs|).value|
    ensures SlotsTerminated(l, vs, |vs|) ==>
              (SlotsOk(l, rs) && SameSlots(l, vs, rs) && MessageAt(l, ds, data, p, limit) == Some(rs))
    ensures !SlotsTerminated(l, vs, |vs|) ==> MessageAt(l, ds, data, p, limit) == None
    decreases l, 5, 0
  {
    var st := SlotsBack(l, vs, ds, data, p, limit, |vs|);
    rs := st.slots;
    if SlotsTerminated(l, vs, |vs|) {
      assert LoopAt(l, st, data, limit, limit) == Some(st);
    }
  }

  /** The first n members. */
  lemma SlotsBack(l: LType, vs: seq<Slot>, ds: seq<Slot>, data: Bytes, p: nat, limit: nat, n: nat) returns (st: State)
    requires l.Submessage? && TypeOk(l) && SlotsOk(l, vs) && SlotsOk(l, ds) && SlotsBlank(l, ds) && |data| < P32
    requires n <= |vs| && SlotsBytes(l, vs, n).Some? && At(data, p, limit, SlotsBytes(l, vs, n).value)
    ensures SlotsTerminated(l, vs, n) ==> (Progress(l, vs, ds, st, n) && SeenAll(l.members, st.seen, n)
            && LoopAt(l, State(ds, None, 0, {}), data, p, limit)
               == LoopAt(l, st, data, p + |SlotsBytes(l, vs, n).value|, limit))
    ensures !SlotsTerminated(l, vs, n) ==> LoopAt(l, State(ds, None, 0, {}), data, p, limit) == None
    decreases l, 4, n
  {
    hide TypeOk;
    hide LoopAt;
    hide At;
    hide SlotOk;
    hide SlotBytes;
    hide SlotTerminated;
    hide SlotsBlank;
    hide SameSlot;
    st := State(ds, None, 0, {});
    if n > 0 {
      AtParts(data, p, limit, SlotsBytes(l, vs, n - 1).value, SlotBytes(l, n - 1, vs[n - 1]).value);
      st := SlotsBack(l, vs, ds, data, p, limit, n - 1);
      if SlotsTerminated(l, vs, n - 1) {
        OneMoreSeen(l.members, st.seen, n - 1);
        st := SlotBack(l, vs, ds, st, data, p + |SlotsBytes(l, vs, n - 1).value|, limit, n - 1);
      }
    }
  }

  /** A required, optional or singular field that is there. */
  lemma SingleBack(l: LType, vs: seq<Slot>, ds: seq<Slot>, st: State, data: Bytes, p: nat, limit: nat, n: nat, v: Val)
    returns (st': State)
    requires l.Submessage? && TypeOk(l) && n < |l.members| && SlotsOk(l, vs) && SlotsOk(l, ds) && SlotsBlank(l, ds)
             && |data| < P32
    requires Progress(l, vs, ds, st, n) && l.members[n].Plain?
    requires var rule := l.members[n].rule;
             (rule.Required? || rule.Singular? || rule.Optional?) && vs[n] == if rule.Optional? then Opt(true, v)
                   else One(v)
    requires SlotOk(l, n, vs[n]) && var bs := TaggedBytes(l.members[n].f, v); bs.Some? && At(data, p, limit, bs.value)
    ensures Terminated(l.members[n].f.ltype, l.members[n].f.dataSize, v) ==>
              (Progress(l, vs, ds, st', n + 1) && st'.seen == SeenNext(l.members, st.seen, n)
               && LoopAt(l, st, data, p, limit)
                  == LoopAt(l, st', data, p + |TaggedBytes(l.members[n].f, v).value|, limit))
    ensures !Terminated(l.members[n].f.ltype, l.members[n].f.dataSize, v) ==> LoopAt(l, st, data, p, limit) == None
    decreases l, 1, 0
  {
    hide TypeOk;
    hide FieldOk;
    hide ValBytes;
    hide TagBytes;
    hide LoopAt;
    hide MemberAt;
    hide ValAt;
    hide SlotsOk;
    hide Terminated;
    hide SameVal;
    hide Progress;
    hide At;
    hide ValOk;
    hide Blank;
    var f, rule := l.members[n].f, l.members[n].rule;
    var tag := TagBytes(WireType(f.ltype), f.tag);
    var q := p + |tag|;
    SlotAsDefault(l, vs, ds, st, n);
    BlankParts(l, n, ds[n]);
    FieldFacts(l, n);
    AtParts(data, p, limit, tag, ValBytes(f.ltype, f.dataSize, v).value);
    AtFits(data, q, limit, ValBytes(f.ltype, f.dataSize, v).value);
    OneTurn(l, st, n, 0, WireType(f.ltype), f.tag, data, p, limit);
    var was := if rule.Optional? then ds[n].o else ds[n].v;
    SingleMember(l, st, n, WireType(f.ltype), data, q, limit);
    var r := ValBack(f, v, was, false, data, q, limit);
    st' := st;
    if Terminated(f.ltype, f.dataSize, v) {
      var slot := if rule.Optional? then Opt(true, r) else One(r);
      st' := SingleState(l, st, n, slot);
      OneSlotMore(l, vs, ds, st, n, slot, st');
    }
  }

  lemma AtFits(data: Bytes, p: nat, limit: nat, bs: Bytes)
    requires At(data, p, limit, bs)
    ensures p + |bs| <= limit <= |data|
  {
  }

  /** What is in the slot of a member that has not come up yet. */
  lemma SlotAsDefault(l: LType, vs: seq<Slot>, ds: seq<Slot>, st: State, n: nat)
    requires l.Submessage? && TypeOk(l) && n < |l.members| && SlotsOk(l, vs) && SlotsOk(l, ds) && SlotsBlank(l, ds)
             && Progress(l, vs, ds, st, n)
    ensures |st.slots| == |vs| == |ds| == |l.members| && SlotsOk(l, st.slots) && StateOk(l, st)
    ensures st.slots[n] == ds[n] && SlotOk(l, n, ds[n]) && SlotBlank(l, n, ds[n]) && SlotOk(l, n, vs[n])
            && MemberOk(l, n)
  {
    hide SlotOk;
    hide SlotBlank;
    hide MemberOk;
    hide SameSlot;
    hide UniqueTags;
  }

  lemma BlankParts(l: LType, n: nat, s: Slot)
    requires l.Submessage? && n < |l.members| && SlotOk(l, n, s) && SlotBlank(l, n, s) && l.members[n].Plain?
    ensures l.members[n].rule.Optional? ==> !s.has && Blank(l.members[n].f.ltype, l.members[n].f.dataSize, s.o)
    ensures l.members[n].rule.Required? || l.members[n].rule.Singular? ==>
              Blank(l.members[n].f.ltype, l.members[n].f.dataSize, s.v)
  {
  }

  lemma FieldFacts(l: LType, n: nat)
    requires l.Submessage? && n < |l.members| && MemberOk(l, n) && l.members[n].Plain?
    ensures FieldOk(l.members[n].f) && 0 < l.members[n].f.tag < MAX_TAG && HasTag(l.members[n], 0, l.members[n].f.tag)
  {
  }

  /** decode_static_field on such a field. */
  lemma SingleMember(l: LType, st: State, n: nat, wire: nat, data: Bytes, q: nat, limit: nat)
    requires l.Submessage? && TypeOk(l) && StateOk(l, st) && n < |l.members| && l.members[n].Plain? && MemberOk(l, n)
             && SlotOk(l, n, st.slots[n])
    requires (l.members[n].rule.Required? || l.members[n].rule.Singular? || l.members[n].rule.Optional?)
             && q <= limit <= |data|
    ensures var optional, s := l.members[n].rule.Optional?, st.slots[n];
            MemberAt(l, st, n, 0, wire, data, q, limit)
            == match ValAt(l.members[n].f, if optional then s.o else s.v, false, data, q, limit)
               case None => None
               case Some(v) => Some((SingleState(l, st, n, if optional then Opt(true, v.0) else One(v.0)), v.1))
  {
    hide ValAt;
    hide ItemsAt;
    hide TypeOk;
    hide SlotsOk;
    hide ValOk;
    hide RequiredBefore;
  }

  ghost function SingleState(l: LType, st: State, n: nat, slot: Slot): State
    requires l.Submessage? && n < |l.members| && n < |st.slots|
  {
    st.(slots := st.slots[n := slot], seen := SeenNext(l.members, st.seen, n))
  }

  // ---- arrays ----

  lemma NumNotEmpty(l: LType, size: nat, n: int)
    requires NumFits(l, size, n)
    ensures |NumBytes(l, size, n)| > 0
  {
  }

  ghost predicate ItemsOk(f: Field, items: seq<Val>) {
    forall k :: 0 <= k < |items| ==> ValOk(f.ltype, f.dataSize, items[k])
  }

  lemma {:induction false} PackedBack(f: Field, vs: seq<Val>, was: seq<Val>, data: Bytes, p: nat, end: nat, k: nat)
    returns (items: seq<Val>)
    requires Packable(f.ltype) && ItemsOk(f, vs) && ItemsOk(f, was) && k <= |vs| == |was| && p <= end <= |data|
    requires ItemsBytes(f, vs, k, false).Some? && At(data, p, end, ItemsBytes(f, vs, k, false).value)
    ensures |items| == |was| && ItemsOk(f, items) && forall j :: 0 <= j < k ==> items[j] == vs[j]
    ensures PackedAt(f, was, 0, data, p, end)
            == PackedAt(f, items, k, data, p + |ItemsBytes(f, vs, k, false).value|, end)
    decreases k
  {
    hide NumAt;
    hide NumBytes;
    hide NumFits;
    hide ItemsBytes;
    hide PackedAt;
    hide At;
    items := was;
    PackedItems(f, vs, k);
    if k == 0 {
    } else {
      var front, last := ItemsBytes(f, vs, k - 1, false).value, NumBytes(f.ltype, f.dataSize, vs[k - 1].n);
      AtParts(data, p, end, front, last);
      items := PackedBack(f, vs, was, data, p, end, k - 1);
      NumBack(f.ltype, f.dataSize, vs[k - 1].n, data, p + |front|, end);
      NumNotEmpty(f.ltype, f.dataSize, vs[k - 1].n);
      AtFits(data, p + |front|, end, last);
      PackedStep(f, items, k - 1, data, p + |front|, end);
      assert Num(vs[k - 1].n) == vs[k - 1];
      items := items[k - 1 := vs[k - 1]];
    }
  }

  lemma PackedItems(f: Field, vs: seq<Val>, k: nat)
    requires Packable(f.ltype) && ItemsOk(f, vs) && k <= |vs|
    ensures k == 0 ==> ItemsBytes(f, vs, k, false) == Some([])
    ensures k > 0 ==>
              ItemsBytes(f, vs, k, false)
              == Join(ItemsBytes(f, vs, k - 1, false), Some(NumBytes(f.ltype, f.dataSize, vs[k - 1].n)))
  {
    hide NumBytes;
    hide NumFits;
  }

  lemma PackedStep(f: Field, items: seq<Val>, count: nat, data: Bytes, p: nat, end: nat)
    requires Packable(f.ltype) && ItemsOk(f, items) && count < |items| && p < end <= |data|
    ensures var n := NumAt(f.ltype, f.dataSize, data, p, end);
            n.Some? ==>
                PackedAt(f, items, count, data, p, end)
                == PackedAt(f, items[count := Num(n.value.0)], count + 1, data, n.value.1, end)
  {
    hide NumAt;
    hide NumFits;
  }

  /** The state once count items of member n are there. */
  function ItemState(l: LType, st: State, n: nat, items: seq<Val>, count: Word): State
    requires l.Submessage? && n < |l.members| && n < |st.slots|
  {
    if IsFixed(l, n) then st.(slots := st.slots[n := Many(0, items)], fixedField := Some(n), fixedSize := count)
    else st.(slots := st.slots[n := Many(count, items)])
  }

  lemma ItemStateSeen(l: LType, st: State, n: nat, items: seq<Val>, count: Word)
    requires l.Submessage? && n < |l.members| && n < |st.slots|
    ensures ItemState(l, st, n, items, count).seen == st.seen
  {
  }

  predicate IsArray(m: Member) { m.Plain? && (m.rule.Repeated? || m.rule.FixedCount?) }

  ghost predicate FixedReady(l: LType, st: State, n: nat)
    requires l.Submessage?
  {
    st.fixedField.Some? && st.fixedField.value != n ==>
          IsFixed(l, st.fixedField.value) && st.fixedSize == l.members[st.fixedField.value].arraySize
  }

  function CountAt(l: LType, st: State, n: nat): nat
    requires l.Submessage? && n < |st.slots| && st.slots[n].Many?
  {
    if IsFixed(l, n) then (if st.fixedField == Some(n) then st.fixedSize else 0) else st.slots[n].count
  }

  /** decode_static_field on an array. */
  lemma ArrayMember(l: LType, st: State, n: nat, wire: nat, data: Bytes, q: nat, limit: nat)
    requires l.Submessage? && TypeOk(l) && StateOk(l, st) && n < |l.members| && IsArray(l.members[n]) && MemberOk(l, n)
    requires |st.slots| == |l.members| && SlotOk(l, n, st.slots[n]) && FixedReady(l, st, n) && q <= limit <= |data|
    ensures var items := ItemsAt(l.members[n].f, st.slots[n].items, CountAt(l, st, n), wire, data, q, limit);
            items.Some? && CountAt(l, st, n) <= |st.slots[n].items| ==>
              items.value.1 <= l.members[n].arraySize
                  && MemberAt(l, st, n, 0, wire, data, q, limit)
                  == Some((ItemState(l, st, n, items.value.0, items.value.1), items.value.2))
    ensures ItemsAt(l.members[n].f, st.slots[n].items, CountAt(l, st, n), wire, data, q, limit) == None ==>
              MemberAt(l, st, n, 0, wire, data, q, limit) == None
  {
    hide ValAt;
    hide ItemsAt;
    hide TypeOk;
    hide SlotsOk;
    hide ValOk;
    hide RequiredBefore;
  }

  lemma TaggedItems(f: Field, vs: seq<Val>, k: nat)
    requires ItemsOk(f, vs) && k <= |vs|
    ensures k == 0 ==> ItemsBytes(f, vs, k, true) == Some([])
    ensures k > 0 ==> ItemsBytes(f, vs, k, true) == Join(ItemsBytes(f, vs, k - 1, true), TaggedBytes(f, vs[k - 1]))
  {
    hide TaggedBytes;
  }

  /** One more item that is not packed. */
  lemma ItemStep(f: Field, items: seq<Val>, count: nat, wire: nat, data: Bytes, p: nat, limit: nat)
    requires FieldOk(f) && !Packable(f.ltype) && ItemsOk(f, items) && count < |items| && p <= limit <= |data|
    ensures ItemsAt(f, items, count, wire, data, p, limit)
         == match ValAt(f, items[count], true, data, p, limit)
             case None => None
             case Some(v) => Some((items[count := v.0], count + 1, v.1))
  {
    hide ValAt;
    hide FieldOk;
  }

  /** The state of an array that is being filled. */
  ghost predicate Filling(l: LType, st: State, n: nat, count: nat)
    requires l.Submessage?
  {
    && StateOk(l, st) && n < |l.members| == |st.slots| && IsArray(l.members[n]) && SlotOk(l, n, st.slots[n])
    && FixedReady(l, st, n) && CountAt(l, st, n) == count && count <= l.members[n].arraySize
  }

  lemma StillFilling(l: LType, st: State, n: nat, count: nat, items: seq<Val>, count': Word)
    requires l.Submessage? && Filling(l, st, n, count) && |items| == l.members[n].arraySize
             && ItemsOk(l.members[n].f, items)
    requires count' <= l.members[n].arraySize
    ensures Filling(l, ItemState(l, st, n, items, count'), n, count')
            && ItemState(l, st, n, items, count').slots[n].items == items
  {
    hide ValOk;
    SlotsStayOk(l, st.slots, n, Many(if IsFixed(l, n) then 0 else count', items));
  }

  lemma SlotsStayOk(l: LType, slots: seq<Slot>, n: nat, slot: Slot)
    requires l.Submessage? && SlotsOk(l, slots) && n < |slots| && SlotOk(l, n, slot)
    ensures SlotsOk(l, slots[n := slot])
  {
    hide SlotOk;
  }

  /** One item with its tag. */
  lemma ItemTurn(l: LType, st: State, n: nat, count: nat, v: Val, data: Bytes, p: nat, limit: nat) returns (r: Val)
    requires l.Submessage? && TypeOk(l) && Filling(l, st, n, count) && MemberOk(l, n) && !Packable(l.members[n].f.ltype)
    requires count < l.members[n].arraySize && |data| < P32
    requires ValOk(l.members[n].f.ltype, l.members[n].f.dataSize, v)
    requires var bs := TaggedBytes(l.members[n].f, v); bs.Some? && At(data, p, limit, bs.value)
    ensures Terminated(l.members[n].f.ltype, l.members[n].f.dataSize, v) ==>
              (ValOk(l.members[n].f.ltype, l.members[n].f.dataSize, r)
               && SameVal(l.members[n].f.ltype, l.members[n].f.dataSize, v, r)
               && Filling(l, ItemState(l, st, n, st.slots[n].items[count := r], count + 1), n, count + 1)
               && ItemState(l, st, n, st.slots[n].items[count := r], count + 1).slots[n].items
                  == st.slots[n].items[count := r]
               && LoopAt(l, st, data, p, limit)
                  == LoopAt(l, ItemState(l, st, n, st.slots[n].items[count := r], count + 1), data,
                            p + |TaggedBytes(l.members[n].f, v).value|, limit))
    ensures !Terminated(l.members[n].f.ltype, l.members[n].f.dataSize, v) ==> LoopAt(l, st, data, p, limit) == None
    decreases l, 0, 0
  {
    hide TypeOk;
    hide FieldOk;
    hide ValBytes;
    hide TagBytes;
    hide LoopAt;
    hide MemberAt;
    hide ValAt;
    hide ItemsAt;
    hide SlotsOk;
    hide Terminated;
    hide SameVal;
    hide At;
    hide ValOk;
    hide Blank;
    hide FixedReady;
    hide ItemState;
    var f, items := l.members[n].f, st.slots[n].items;
    var tag, val := TagBytes(WireType(f.ltype), f.tag), ValBytes(f.ltype, f.dataSize, v).value;
    var q := p + |tag|;
    FieldFacts(l, n);
    AtParts(data, p, limit, tag, val);
    AtFits(data, q, limit, val);
    OneTurn(l, st, n, 0, WireType(f.ltype), f.tag, data, p, limit);
    ArrayMember(l, st, n, WireType(f.ltype), data, q, limit);
    ItemStep(f, items, count, WireType(f.ltype), data, q, limit);
    ItemsAreOk(l, st, n);
    r := ValBack(f, v, items[count], true, data, q, limit);
    if Terminated(f.ltype, f.dataSize, v) { StillFilling(l, st, n, count, items[count := r], count + 1); }
  }

  lemma ItemsAreOk(l: LType, st: State, n: nat)
    requires l.Submessage? && n < |l.members| == |st.slots| && IsArray(l.members[n]) && SlotOk(l, n, st.slots[n])
    ensures |st.slots[n].items| == l.members[n].arraySize && ItemsOk(l.members[n].f, st.slots[n].items)
  {
  }

  /** The first k items of an array that is not packed. */
  lemma {:induction false} TaggedItemsBack(l: LType, st: State, n: nat, vs: seq<Val>, data: Bytes, p: nat, limit: nat,
                                           k: nat) returns (now: State)
    requires l.Submessage? && TypeOk(l) && Filling(l, st, n, 0) && MemberOk(l, n) && !Packable(l.members[n].f.ltype)
             && |data| < P32
    requires ItemsOk(l.members[n].f, vs) && k <= |vs| == l.members[n].arraySize
    requires var bs := ItemsBytes(l.members[n].f, vs, k, true); bs.Some? && At(data, p, limit, bs.value)
    ensures ItemsTerminated(l.members[n].f, vs, k) ==>
              (Filling(l, now, n, k) && SameItems(l.members[n].f, vs, now.slots[n].items, k)
               && (k == 0 ==> now == st) && (k > 0 ==> now == ItemState(l, st, n, now.slots[n].items, k))
               && now.seen == st.seen
               && LoopAt(l, st, data, p, limit) == LoopAt(l, now, data,
                                                          p + |ItemsBytes(l.members[n].f, vs, k, true).value|, limit))
    ensures !ItemsTerminated(l.members[n].f, vs, k) ==> LoopAt(l, st, data, p, limit) == None
    decreases l, 1, k
  {
    hide TypeOk;
    hide FieldOk;
    hide TaggedBytes;
    hide LoopAt;
    hide Terminated;
    hide SameVal;
    hide At;
    hide ValOk;
    hide ItemsBytes;
    hide ItemState;
    hide MemberOk;
    hide SlotsOk;
    var f := l.members[n].f;
    now := st;
    TaggedItems(f, vs, k);
    if k > 0 {
      var front, last := ItemsBytes(f, vs, k - 1, true).value, TaggedBytes(f, vs[k - 1]).value;
      AtParts(data, p, limit, front, last);
      now := TaggedItemsBack(l, st, n, vs, data, p, limit, k - 1);
      if ItemsTerminated(f, vs, k - 1) {
        var r := ItemTurn(l, now, n, k - 1, vs[k - 1], data, p + |front|, limit);
        if Terminated(f.ltype, f.dataSize, vs[k - 1]) {
          var items := now.slots[n].items[k - 1 := r];
          ItemStateAgain(l, st, n, now.slots[n].items, k - 1, items, k);
          ItemStateSeen(l, now, n, items, k);
          now := ItemState(l, now, n, items, k);
        }
      }
    }
  }

  lemma ItemStateAgain(l: LType, st: State, n: nat, items: seq<Val>, k: Word, items': seq<Val>, k': Word)
    requires l.Submessage? && n < |l.members| == |st.slots|
    ensures ItemState(l, ItemState(l, st, n, items, k), n, items', k') == ItemState(l, st, n, items', k')
  {
    assert st.slots[n := Many(0, items)][n := Many(0, items')] == st.slots[n := Many(0, items')];
    assert st.slots[n := Many(k, items)][n := Many(k', items')] == st.slots[n := Many(k', items')];
  }

  /** A packed array. */
  lemma PackedArrayBack(l: LType, st: State, n: nat, vs: seq<Val>, count: nat, data: Bytes, p: nat, limit: nat)
    returns (now: State)
    requires l.Submessage? && TypeOk(l) && Filling(l, st, n, 0) && MemberOk(l, n) && Packable(l.members[n].f.ltype)
             && |data| < P32
    requires ItemsOk(l.members[n].f, vs) && 0 < count <= |vs| == l.members[n].arraySize
    requires var bs := ItemsBytes(l.members[n].f, vs, count, false);
             bs.Some? && At(data, p, limit, TagBytes(2, l.members[n].f.tag) + Delimited(bs.value))
    ensures var bs := ItemsBytes(l.members[n].f, vs, count, false).value;
            && Filling(l, now, n, count) && now == ItemState(l, st, n, now.slots[n].items, count) && now.seen == st.seen
            && (forall k :: 0 <= k < count ==> now.slots[n].items[k] == vs[k])
            && LoopAt(l, st, data, p, limit) == LoopAt(l, now, data,
                                                       p + |TagBytes(2, l.members[n].f.tag) + Delimited(bs)|, limit)
  {
    hide TypeOk;
    hide FieldOk;
    hide LoopAt;
    hide MemberAt;
    hide ItemsAt;
    hide PackedAt;
    hide At;
    hide ValOk;
    hide ItemsBytes;
    hide ItemState;
    hide SlotsOk;
    hide Varint;
    hide TagBytes;
    hide FixedReady;
    hide SubstreamAt;
    var f, items := l.members[n].f, st.slots[n].items;
    var tag, bs := TagBytes(2, f.tag), ItemsBytes(f, vs, count, false).value;
    var q := p + |tag|;
    FieldFacts(l, n);
    ItemsAreOk(l, st, n);
    AtParts(data, p, limit, tag, Delimited(bs));
    AtFits(data, q, limit, Delimited(bs));
    OneTurn(l, st, n, 0, 2, f.tag, data, p, limit);
    ArrayMember(l, st, n, 2, data, q, limit);
    DelimitedBack(data, q, limit, bs);
    var start := q + |Varint(|bs|)|;
    Within(data, start, limit, bs);
    var r := PackedBack(f, vs, items, data, start, start + |bs|, count);
    PackedEnd(f, r, count, data, start + |bs|);
    PackedItemsAt(f, items, data, q, limit, start, start + |bs|);
    now := ItemState(l, st, n, r, count);
    ItemStateSeen(l, st, n, r, count);
    StillFilling(l, st, n, 0, r, count);
  }

  lemma PackedEnd(f: Field, items: seq<Val>, count: nat, data: Bytes, end: nat)
    requires Packable(f.ltype) && ItemsOk(f, items) && end <= |data|
    ensures PackedAt(f, items, count, data, end, end) == Some((items, count))
  {
  }

  lemma PackedItemsAt(f: Field, items: seq<Val>, data: Bytes, p: nat, limit: nat, start: nat, end: nat)
    requires FieldOk(f) && Packable(f.ltype) && ItemsOk(f, items) && p <= limit <= |data|
             && SubstreamAt(data, p, limit) == Some((start, end))
    ensures start <= end <= |data|
    ensures ItemsAt(f, items, 0, 2, data, p, limit)
         == match PackedAt(f, items, 0, data, start, end) case None => None case Some(r) => Some((r.0, r.1, end))
  {
    hide FieldOk;
    hide PackedAt;
    hide Varint32At;
  }

  /** A member that has nothing on the wire. */
  lemma NothingBack(l: LType, vs: seq<Slot>, ds: seq<Slot>, st: State, n: nat)
    requires l.Submessage? && TypeOk(l) && n < |l.members| && SlotsOk(l, vs) && SlotsOk(l, ds) && SlotsBlank(l, ds)
             && Progress(l, vs, ds, st, n)
    requires SlotOk(l, n, vs[n]) && SlotOk(l, n, ds[n]) && SameSlot(l, n, vs[n], ds[n]) && !IsRequired(l.members[n])
    ensures Progress(l, vs, ds, st, n + 1)
  {
    SlotAsDefault(l, vs, ds, st, n);
    assert st.slots[n := ds[n]] == st.slots;
    OneSlotMore(l, vs, ds, st, n, ds[n], st);
  }

  lemma StartsFilling(l: LType, vs: seq<Slot>, ds: seq<Slot>, st: State, n: nat)
    requires l.Submessage? && TypeOk(l) && n < |l.members| && SlotsOk(l, vs) && SlotsOk(l, ds) && SlotsBlank(l, ds)
             && Progress(l, vs, ds, st, n)
    requires IsArray(l.members[n])
    ensures Filling(l, st, n, 0) && MemberOk(l, n) && st.slots[n] == ds[n]
  {
    hide TypeOk;
    hide SlotsOk;
    hide SlotsBlank;
    hide ValOk;
    SlotAsDefault(l, vs, ds, st, n);
  }

  /** An array is complete. */
  lemma ArrayDone(l: LType, vs: seq<Slot>, ds: seq<Slot>, st: State, n: nat, count: nat, now: State)
    requires l.Submessage? && TypeOk(l) && n < |l.members| && n < |vs| && SlotsOk(l, vs) && SlotsOk(l, ds)
             && Progress(l, vs, ds, st, n)
    requires IsArray(l.members[n]) && SlotOk(l, n, vs[n]) && Filling(l, now, n, count)
             && now == ItemState(l, st, n, now.slots[n].items, count)
    requires count == if IsFixed(l, n) then l.members[n].arraySize else vs[n].count
    requires ItemsOk(l.members[n].f, now.slots[n].items) && |vs[n].items| == |now.slots[n].items|
             && ItemsOk(l.members[n].f, vs[n].items)
    requires SameItems(l.members[n].f, vs[n].items, now.slots[n].items, count)
    ensures Progress(l, vs, ds, now, n + 1)
  {
    hide TypeOk;
    hide SlotsOk;
    hide ValOk;
    hide SameItems;
    hide Progress;
    hide FixedReady;
    hide StateOk;
    SameProgressSize(l, vs, ds, st, n);
    OneSlotMore(l, vs, ds, st, n, now.slots[n], now);
  }

  lemma SameProgressSize(l: LType, vs: seq<Slot>, ds: seq<Slot>, st: State, n: nat)
    requires l.Submessage? && n <= |l.members| && SlotsOk(l, vs) && SlotsOk(l, ds) && n <= |vs|
             && Progress(l, vs, ds, st, n)
    ensures |st.slots| == |l.members| == |vs|
  {
  }

  function CountOf(m: Member, s: Slot): nat
    requires IsArray(m) && s.Many?
  { if m.rule.FixedCount? then m.arraySize else s.count }

  /** A repeated field, with or without a count. */
  lemma ArrayBack(l: LType, vs: seq<Slot>, ds: seq<Slot>, st: State, data: Bytes, p: nat, limit: nat, n: nat)
    returns (st': State)
    requires l.Submessage? && TypeOk(l) && n < |l.members| && n < |vs| && SlotsOk(l, vs) && SlotsOk(l, ds)
             && SlotsBlank(l, ds) && |data| < P32
    requires Progress(l, vs, ds, st, n) && IsArray(l.members[n]) && SlotOk(l, n, vs[n])
    requires var bs := ArrayBytes(l.members[n].f, l.members[n].arraySize, vs[n].items, CountOf(l.members[n], vs[n]));
             bs.Some? && At(data, p, limit, bs.value)
    ensures var bs := ArrayBytes(l.members[n].f, l.members[n].arraySize, vs[n].items,
                                 CountOf(l.members[n], vs[n])).value;
            var fine := ItemsTerminated(l.members[n].f, vs[n].items, CountOf(l.members[n], vs[n]));
            && (fine ==> (Progress(l, vs, ds, st', n + 1) && st'.seen == st.seen
                          && LoopAt(l, st, data, p, limit) == LoopAt(l, st', data, p + |bs|, limit)))
            && (!fine ==> LoopAt(l, st, data, p, limit) == None)
    decreases l, 2, 0
  {
    hide TypeOk;
    hide FieldOk;
    hide LoopAt;
    hide At;
    hide ValOk;
    hide ItemsBytes;
    hide ItemState;
    hide SlotsOk;
    hide TagBytes;
    hide Delimited;
    hide Progress;
    hide StateOk;
    hide FixedReady;
    hide SlotsBlank;
    hide SlotBlank;
    hide Terminated;
    hide SameVal;
    var f, items, count := l.members[n].f, vs[n].items, CountOf(l.members[n], vs[n]);
    SlotAsDefault(l, vs, ds, st, n);
    StartsFilling(l, vs, ds, st, n);
    st' := st;
    if count == 0 {
      EmptySame(l, vs, ds, n);
      NothingBack(l, vs, ds, st, n);
    } else if Packable(f.ltype) {
      st' := PackedArrayBack(l, st, n, items, count, data, p, limit);
      ItemsAreOk(l, st', n);
      AllPacked(f, items, st'.slots[n].items, count);
      ArrayDone(l, vs, ds, st, n, count, st');
    } else {
      st' := TaggedItemsBack(l, st, n, items, data, p, limit, count);
      if ItemsTerminated(f, items, count) {
        ItemsAreOk(l, st', n);
        ArrayDone(l, vs, ds, st, n, count, st');
      }
    }
  }

  lemma AllPacked(f: Field, vs: seq<Val>, items: seq<Val>, count: nat)
    requires Packable(f.ltype) && |vs| == |items| && ItemsOk(f, vs) && ItemsOk(f, items) && count <= |vs|
    requires forall k :: 0 <= k < count ==> items[k] == vs[k]
    ensures SameItems(f, vs, items, count) && ItemsTerminated(f, vs, count)
  {
  }

  lemma EmptySame(l: LType, vs: seq<Slot>, ds: seq<Slot>, n: nat)
    requires l.Submessage? && n < |l.members| == |vs| == |ds| && IsArray(l.members[n]) && SlotOk(l, n, vs[n])
             && SlotOk(l, n, ds[n])
    requires SlotBlank(l, n, ds[n]) && CountOf(l.members[n], vs[n]) == 0
    ensures SameSlot(l, n, vs[n], ds[n]) && ItemsTerminated(l.members[n].f, vs[n].items, 0)
  {
  }

  // ---- oneofs ----

  /** The place of the field that is there, if any is. */
  function Chosen(fields: seq<Field>, which: Word, n: nat): (j: nat)
    requires n <= |fields|
    ensures j <= n && (j < n ==> fields[j].tag == which)
            && (j == n ==> forall k :: 0 <= k < n ==> fields[k].tag != which)
  {
    if n == 0 then 0 else
      var j := Chosen(fields, which, n - 1);
      if j < n - 1 then j else if fields[n - 1].tag == which then n - 1 else n
  }

  ghost predicate FieldTagsDiffer(fields: seq<Field>) {
    forall j, k :: 0 <= j < k < |fields| ==> fields[j].tag != fields[k].tag
  }

  lemma {:induction false} UnionIsOne(l: LType, i: nat, s: Slot, n: nat)
    requires l.Submessage? && i < |l.members| && l.members[i].Union? && n <= |l.members[i].fields| && SlotOk(l, i, s)
    requires FieldTagsDiffer(l.members[i].fields)
    ensures var fields := l.members[i].fields; var j := Chosen(fields, s.which, n);
            UnionBytes(l, i, s, n) == if j < n then TaggedBytes(fields[j], s.u) else Some([])
    decreases n
  {
    if n > 0 {
      hide TaggedBytes;
      UnionIsOne(l, i, s, n - 1);
      NothingJoined(UnionBytes(l, i, s, n - 1));
      if s.which == l.members[i].fields[n - 1].tag { NothingJoined(TaggedBytes(l.members[i].fields[n - 1], s.u)); }
    }
  }

  lemma NothingJoined(a: Option<Bytes>)
    ensures Join(a, Some([])) == a && Join(Some([]), a) == a
  {
    if a.Some? { assert a.value + [] == a.value && [] + a.value == a.value; }
  }

  lemma NoneChosen(l: LType, vs: seq<Slot>, ds: seq<Slot>, st: State, n: nat)
    requires l.Submessage? && TypeOk(l) && n < |l.members| && n < |vs| && SlotsOk(l, vs) && SlotsOk(l, ds)
             && SlotsBlank(l, ds) && Progress(l, vs, ds, st, n)
    requires l.members[n].Union? && SlotOk(l, n, vs[n]) && forall k :: 0 <= k < |l.members[n].fields| ==>
               l.members[n].fields[k].tag != vs[n].which
    ensures Progress(l, vs, ds, st, n + 1) && SlotTerminated(l, n, vs[n])
  {
    hide TypeOk;
    hide SlotsOk;
    hide Progress;
    hide SlotsBlank;
    SlotAsDefault(l, vs, ds, st, n);
    UnionFacts(l, n, 0);
    NothingBack(l, vs, ds, st, n);
  }

  lemma UnionFacts(l: LType, n: nat, j: nat)
    requires l.Submessage? && TypeOk(l) && n < |l.members| && l.members[n].Union?
    ensures FieldTagsDiffer(l.members[n].fields) && forall k :: 0 <= k < |l.members[n].fields| ==>
              l.members[n].fields[k].tag != 0
    ensures j < |l.members[n].fields| ==>
              var f := l.members[n].fields[j];
              FieldOk(f) && TypeOk(f.ltype) && 0 < f.tag < MAX_TAG && HasTag(l.members[n], j, f.tag)
  {
    var m := l.members[n];
    assert MemberOk(l, n);
    forall a, b | 0 <= a < b < |m.fields| ensures m.fields[a].tag != m.fields[b].tag {
      assert HasTag(m, a, m.fields[a].tag) && HasTag(m, b, m.fields[b].tag);
    }
  }

  /** What a field of a oneof starts from. */
  function Fresh(f: Field): (v: Val)
    requires FieldOk(f)
    ensures ValOk(f.ltype, f.dataSize, v)
  {
    if f.ltype.Submessage? then Struct(Defaults(f.ltype, ZeroVal(f.ltype, f.dataSize).slots))
    else ZeroVal(f.ltype, f.dataSize)
  }

  lemma FreshIsBlank(f: Field)
    requires FieldOk(f)
    ensures Blank(f.ltype, f.dataSize, Fresh(f))
  {
    if f.ltype.Submessage? { DefaultsAreBlank(f.ltype, ZeroVal(f.ltype, f.dataSize).slots); }
  }

  function UnionState(st: State, n: nat, tag: Word, v: Val): State
    requires n < |st.slots|
  { st.(slots := st.slots[n := Which(tag, v)]) }

  /** decode_static_field on a oneof that is still empty. */
  lemma UnionMember(l: LType, st: State, n: nat, j: nat, wire: nat, data: Bytes, q: nat, limit: nat)
    requires l.Submessage? && TypeOk(l) && StateOk(l, st) && n < |l.members| == |st.slots| && l.members[n].Union?
             && j < |l.members[n].fields|
    requires SlotOk(l, n, st.slots[n]) && st.slots[n].which == 0 && q <= limit <= |data|
    requires FieldOk(l.members[n].fields[j]) && l.members[n].fields[j].tag != 0
    ensures var f := l.members[n].fields[j];
            MemberAt(l, st, n, j, wire, data, q, limit)
            == match ValAt(f, Fresh(f), false, data, q, limit)
                case None => None
                case Some(v) => Some((UnionState(st, n, f.tag, v.0), v.1))
  {
    hide ValAt;
    hide TypeOk;
    hide SlotsOk;
    hide ValOk;
    hide FieldOk;
    hide Defaults;
    hide ZeroVal;
  }

  lemma UnionBack(l: LType, vs: seq<Slot>, ds: seq<Slot>, st: State, data: Bytes, p: nat, limit: nat, n: nat)
    returns (st': State)
    requires l.Submessage? && TypeOk(l) && n < |l.members| && n < |vs| && SlotsOk(l, vs) && SlotsOk(l, ds)
             && SlotsBlank(l, ds) && |data| < P32
    requires Progress(l, vs, ds, st, n) && l.members[n].Union? && SlotOk(l, n, vs[n])
    requires SlotBytes(l, n, vs[n]).Some? && At(data, p, limit, SlotBytes(l, n, vs[n]).value)
    ensures SlotTerminated(l, n, vs[n]) ==>
              (Progress(l, vs, ds, st', n + 1) && st'.seen == SeenNext(l.members, st.seen, n)
               && LoopAt(l, st, data, p, limit) == LoopAt(l, st', data, p + |SlotBytes(l, n, vs[n]).value|, limit))
    ensures !SlotTerminated(l, n, vs[n]) ==> LoopAt(l, st, data, p, limit) == None
    decreases l, 2, 0
  {
    hide TypeOk;
    hide FieldOk;
    hide LoopAt;
    hide MemberAt;
    hide ValAt;
    hide At;
    hide ValOk;
    hide ValBytes;
    hide TagBytes;
    hide SlotsOk;
    hide Progress;
    hide StateOk;
    hide SlotsBlank;
    hide Terminated;
    hide SameVal;
    hide Blank;
    hide Fresh;
    hide UnionBytes;
    var fields, s := l.members[n].fields, vs[n];
    var j := Chosen(fields, s.which, |fields|);
    SlotAsDefault(l, vs, ds, st, n);
    UnionFacts(l, n, j);
    UnionIsOne(l, n, s, |fields|);
    st' := st;
    if j == |fields| {
      NoneChosen(l, vs, ds, st, n);
    } else {
      var f := fields[j];
      var tag, val := TagBytes(WireType(f.ltype), f.tag), ValBytes(f.ltype, f.dataSize, s.u).value;
      AtParts(data, p, limit, tag, val);
      AtFits(data, p + |tag|, limit, val);
      OneTurn(l, st, n, j, WireType(f.ltype), f.tag, data, p, limit);
      UnionMember(l, st, n, j, WireType(f.ltype), data, p + |tag|, limit);
      FreshIsBlank(f);
      var r := ValBack(f, s.u, Fresh(f), false, data, p + |tag|, limit);
      if Terminated(f.ltype, f.dataSize, s.u) {
        st' := UnionState(st, n, f.tag, r);
        OneSlotMore(l, vs, ds, st, n, Which(f.tag, r), st');
      }
    }
  }

  // ---- any member ----

  lemma SlotBack(l: LType, vs: seq<Slot>, ds: seq<Slot>, st: State, data: Bytes, p: nat, limit: nat, n: nat)
    returns (st': State)
    requires l.Submessage? && TypeOk(l) && n < |l.members| && n < |vs| && SlotsOk(l, vs) && SlotsOk(l, ds)
             && SlotsBlank(l, ds) && |data| < P32
    requires Progress(l, vs, ds, st, n) && SlotOk(l, n, vs[n])
    requires SlotBytes(l, n, vs[n]).Some? && At(data, p, limit, SlotBytes(l, n, vs[n]).value)
    ensures SlotTerminated(l, n, vs[n]) ==>
              (Progress(l, vs, ds, st', n + 1) && st'.seen == SeenNext(l.members, st.seen, n)
               && LoopAt(l, st, data, p, limit) == LoopAt(l, st', data, p + |SlotBytes(l, n, vs[n]).value|, limit))
    ensures !SlotTerminated(l, n, vs[n]) ==> LoopAt(l, st, data, p, limit) == None
    decreases l, 3, 0
  {
    hide TypeOk;
    hide LoopAt;
    hide At;
    hide ValOk;
    hide TaggedBytes;
    hide ArrayBytes;
    hide SlotsOk;
    hide Progress;
    hide SlotsBlank;
    hide Terminated;
    hide SameVal;
    var m, s := l.members[n], vs[n];
    if m.Union? {
      st' := UnionBack(l, vs, ds, st, data, p, limit, n);
    } else if m.rule.Repeated? || m.rule.FixedCount? {
      st' := ArrayBack(l, vs, ds, st, data, p, limit, n);
    } else if m.rule.Required? || (m.rule.Optional? && s.has)
        || (m.rule.Singular? && !IsDefault(m.f.ltype, m.f.dataSize, s.v)) {
      st' := SingleBack(l, vs, ds, st, data, p, limit, n, if m.rule.Optional? then s.o else s.v);
    } else {
      st' := st;
      AbsentBack(l, vs, ds, st, n);
    }
  }

  lemma AbsentBack(l: LType, vs: seq<Slot>, ds: seq<Slot>, st: State, n: nat)
    requires l.Submessage? && TypeOk(l) && n < |l.members| && n < |vs| && SlotsOk(l, vs) && SlotsOk(l, ds)
             && SlotsBlank(l, ds) && Progress(l, vs, ds, st, n)
    requires l.members[n].Plain? && SlotOk(l, n, vs[n])
    requires var m := l.members[n];
             (m.rule.Optional? && !vs[n].has) || (m.rule.Singular? && IsDefault(m.f.ltype, m.f.dataSize, vs[n].v))
    ensures Progress(l, vs, ds, st, n + 1)
  {
    hide SlotsOk;
    hide Progress;
    hide SlotsBlank;
    hide ValOk;
    hide SameVal;
    hide IsDefault;
    hide AsAbsent;
    hide Blank;
    hide UniqueTags;
    SlotAsDefault(l, vs, ds, st, n);
    FieldFacts(l, n);
    if l.members[n].rule.Singular? { AbsentSame(l.members[n].f.ltype, l.members[n].f.dataSize, vs[n].v, ds[n].v); }
    NothingBack(l, vs, ds, st, n);
  }

  // ---- the round trip ----

  /** pb_decode of what pb_encode wrote restores the message, into a struct that held
      anything, exactly when every string that is there is terminated in its buffer. */
  lemma RoundTripIff(l: LType, v: Val, was: Val) returns (r: Val)
    requires l.Submessage? && TypeOk(l) && ValOk(l, 0, v) && ValOk(l, 0, was)
    requires MessageBytes(l, v).Some? && |MessageBytes(l, v).value| < P32
    ensures Terminated(l, 0, v) ==> (ValOk(l, 0, r) && SameVal(l, 0, v, r)
                                     && Decoded(l, was, MessageBytes(l, v).value) == Some(r))
    ensures !Terminated(l, 0, v) ==> Decoded(l, was, MessageBytes(l, v).value) == None
  {
    var bs := MessageBytes(l, v).value;
    var ds := Defaults(l, was.slots);
    CountIs(l, v.slots);
    DefaultsAreBlank(l, was.slots);
    assert bs[0..0 + |bs|] == bs;
    var slots := MessageBack(l, v.slots, ds, bs, 0, |bs|);
    r := Struct(slots);
  }

  /** Count, write, read back. */
  method EncodeAndDecode(l: LType, v: Val, was: Val) returns (bytes: Option<Bytes>, r: Option<Val>)
    requires l.Submessage? && TypeOk(l) && ValOk(l, 0, v) && ValOk(l, 0, was)
    ensures bytes == MessageBytes(l, v) && (bytes == None ==> r == None)
    ensures bytes.Some? && |bytes.value| < P32 ==> (r.Some? <==> Terminated(l, 0, v))
    ensures bytes.Some? && |bytes.value| < P32 && r.Some? ==> ValOk(l, 0, r.value) && SameVal(l, 0, v, r.value)
  {
    hide TypeOk;
    hide ValOk;
    hide Terminated;
    hide SameVal;
    hide MessageBytes;
    r := None;
    bytes := Encoder.SizeThenEncode(l, v);
    if bytes.Some? {
      r := Decoder.Decode(l, was, bytes.value);
      if |bytes.value| < P32 { ghost var back := RoundTripIff(l, v, was); }
    }
  }
}
