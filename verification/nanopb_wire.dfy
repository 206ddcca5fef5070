/** What pb_encode writes is a row of fields in the wire format (pb_encode.c), each under a tag
    of its message type, so that pb_decode passes over it field by field when it knows none of
    the tags (pb_decode.c). */
module NanopbWire {
  import opened InternalKeys
  import opened Coding
  import opened NanopbMessages
  import opened NanopbDecode
  import opened NanopbRoundTrip
  import opened NanopbUnknown

  /** A base 128 number, lowest digit first. */
  ghost function Digits(bs: Bytes): nat { if bs == [] then 0 else bs[0] % 128 + 128 * Digits(bs[1..]) }

  lemma OneMoreDigit(digit: nat, bs: Bytes)
    requires digit < 128
    ensures EndsOnce([digit]) && Digits([digit]) == digit
    ensures Digits([digit + 128] + bs) == digit + 128 * Digits(bs)
    ensures EndsOnce(bs) ==> EndsOnce([digit + 128] + bs)
  {
    assert ([digit + 128] + bs)[1..] == bs && [digit][1..] == [];
  }

  lemma {:induction false} VarintIs(v: nat)
    ensures EndsOnce(Varint(v)) && Digits(Varint(v)) == v
  {
    hide EndsOnce;
    hide Digits;
    OneMoreDigit(v % 128, Varint(v / 128));
    if v >= 128 { VarintIs(v / 128); }
  }

  // ---- what the two decoders of numbers take ----

  /** The byte at place k, past 32 bits, adds nothing, or the sign of a negative number. */
  ghost predicate Extension(byte: Byte, k: nat, result: Word) {
    byte % 128 == 0 || (result >= P31 && byte as int == if k < 9 then 255 else 1)
  }

  /** pb_decode_varint32 takes what fits into 32 bits, and longer forms that only extend it. */
  ghost predicate Takes32(bs: Bytes) {
    && (|bs| == 5 ==> bs[4] < 16)
    && forall k :: 5 <= k < |bs| ==> Extension(bs[k], k, Low32(Digits(bs)))
  }

  lemma {:induction false} DigitsOfBoth(a: Bytes, b: Bytes)
    ensures Digits(a + b) == Digits(a) + Scale(|a|) * Digits(b)
  {
    if a == [] {
      assert a + b == b;
    } else {
      DigitsOfBoth(a[1..], b);
      assert (a + b)[1..] == a[1..] + b;
      Regrouped(Digits(a[1..]), Scale(|a| - 1), Digits(b));
    }
  }

  lemma Regrouped(x: nat, m: nat, y: nat)
    ensures 128 * (x + m * y) == 128 * x + 128 * m * y
  {
  }

  lemma ByteAt(bs: Bytes, data: Bytes, p: nat, limit: nat, k: nat)
    requires At(data, p, limit, bs) && k < |bs|
    ensures p + k < limit <= |data| && data[p + k] == bs[k]
  {
    assert data[p..p + |bs|][k] == data[p + k];
  }

  lemma {:induction false} TailReads(bs: Bytes, data: Bytes, p: nat, limit: nat, k: nat, m: nat, result: Word)
    requires EndsOnce(bs) && At(data, p, limit, bs) && 5 <= k < |bs|
    ensures Varint32Rest(data, p + k, limit, 7 * k, m, result)
         == if forall j :: k <= j < |bs| ==> Extension(bs[j], j, result) then Some((result, p + |bs|)) else None
    decreases |bs| - k
  {
    hide At;
    hide Shifted;
    hide Low32;
    ByteAt(bs, data, p, limit, k);
    if k + 1 < |bs| { TailReads(bs, data, p, limit, k + 1, 128 * m, result); }
    assert Extension(bs[k], k, result) <==> !(bs[k] % 128 != 0 && (result < 0x8000_0000
                                              || bs[k] != if 7 * k < 63 then 0xFF else 0x01));
  }

  /** One of the bytes 1 to 4. */
  lemma HeadReads(bs: Bytes, data: Bytes, p: nat, limit: nat, k: nat, m: nat)
    requires EndsOnce(bs) && At(data, p, limit, bs) && 1 <= k <= 4 && k < |bs| && m == Scale(k)
    ensures var result := Low32(Digits(bs[..k])); var next := Low32(Digits(bs[..k + 1]));
            Varint32Rest(data, p + k, limit, 7 * k, m, result)
            == if k + 1 < |bs| then Varint32Rest(data, p + k + 1, limit, 7 * (k + 1), 128 * m, next)
               else if k == 4 && bs[k] >= 16 then None else Some((next, p + k + 1))
  {
    hide At;
    hide Low32;
    ByteAt(bs, data, p, limit, k);
    DigitsOfBoth(bs[..k], [bs[k]]);
    assert bs[..k] + [bs[k]] == bs[..k + 1];
    assert Digits([bs[k]]) == bs[k] % 128;
    AddLow32(Digits(bs[..k]), Shifted(bs[k] % 128, m));
  }

  /** The bytes that lie within 32 bits. */
  lemma FirstFive(bs: Bytes, data: Bytes, p: nat, limit: nat)
    requires EndsOnce(bs) && At(data, p, limit, bs)
    ensures Varint32At(data, p, limit)
         == if |bs| > 5 then Varint32Rest(data, p + 5, limit, 35, 0x8_0000_0000, Low32(Digits(bs[..5])))
            else if |bs| == 5 && bs[4] >= 16 then None else Some((Low32(Digits(bs)), p + |bs|))
  {
    hide At;
    hide Varint32Rest;
    hide Digits;
    hide Scale;
    ByteAt(bs, data, p, limit, 0);
    FirstDigit(bs);
    Scales();
    assert bs[..|bs|] == bs;
    if |bs| > 1 { HeadReads(bs, data, p, limit, 1, 128); }
    if |bs| > 2 { HeadReads(bs, data, p, limit, 2, 0x4000); }
    if |bs| > 3 { HeadReads(bs, data, p, limit, 3, 0x20_0000); }
    if |bs| > 4 { HeadReads(bs, data, p, limit, 4, 0x1000_0000); }
  }

  /** pb_decode_varint32 on any varint whatever. */
  lemma Varint32Reads(bs: Bytes, data: Bytes, p: nat, limit: nat)
    requires EndsOnce(bs) && At(data, p, limit, bs)
    ensures Varint32At(data, p, limit) == if Takes32(bs) then Some((Low32(Digits(bs)), p + |bs|)) else None
  {
    hide At;
    hide Varint32At;
    hide Varint32Rest;
    hide EndsOnce;
    hide Digits;
    hide Extension;
    hide Scale;
    hide Low32;
    FirstFive(bs, data, p, limit);
    if |bs| > 5 {
      TailReads(bs, data, p, limit, 5, 0x8_0000_0000, Low32(Digits(bs[..5])));
      DigitsOfBoth(bs[..5], bs[5..]);
      assert bs[..5] + bs[5..] == bs;
      Scales();
      NothingAbove(Digits(bs[..5]), Digits(bs[5..]));
    }
  }

  lemma FirstDigit(bs: Bytes)
    requires bs != []
    ensures Digits(bs[..1]) == bs[0] % 128
  {
    assert bs[..1][1..] == [];
  }

  lemma Scales()
    ensures Scale(1) == 128 && Scale(2) == 0x4000 && Scale(3) == 0x20_0000 && Scale(4) == 0x1000_0000
            && Scale(5) == 0x8_0000_0000
  {
    assert Scale(1) == 128 * Scale(0);
    assert Scale(3) == 128 * Scale(2);
  }

  lemma NothingAbove(low: nat, high: nat)
    ensures Low32(low + 0x8_0000_0000 * high) == Low32(low)
  {
    var q, r := low / P32, low % P32;
    assert low + 0x8_0000_0000 * high == P32 * (q + 8 * high) + r;
    RemainderIs(q + 8 * high, r);
  }

  lemma RemainderIs(q: nat, r: nat)
    requires r < P32
    ensures (P32 * q + r) % P32 == r
  {
  }

  /** Up to five bytes that is any number below 2 to the 32nd. */
  lemma ShortTakes(bs: Bytes)
    requires EndsOnce(bs) && |bs| <= 5
    ensures Takes32(bs) <==> Digits(bs) < P32
  {
    hide Scale;
    Scales();
    DigitsFit(bs);
    if |bs| == 5 {
      DigitsOfBoth(bs[..4], bs[4..]);
      assert bs[..4] + bs[4..] == bs && bs[4..] == [bs[4]];
      DigitsFit(bs[..4]);
      assert Digits([bs[4]]) == bs[4] % 128 == bs[4];
    }
  }

  lemma {:induction false} DigitsFit(bs: Bytes)
    ensures Digits(bs) < Scale(|bs|)
  {
    if bs != [] { DigitsFit(bs[1..]); }
  }

  /** pb_decode_varint takes up to ten bytes, in 64-bit arithmetic. */
  lemma {:induction false} Varint64Reads(bs: Bytes, data: Bytes, p: nat, limit: nat, budget: nat)
    requires EndsOnce(bs) && At(data, p, limit, bs)
    ensures DecodeVarint(data, p, limit, budget) == if |bs| <= budget then Some((Digits(bs), p + |bs|)) else None
    decreases |bs|
  {
    ByteAt(bs, data, p, limit, 0);
    if |bs| > 1 {
      assert bs[..1] + bs[1..] == bs;
      AtParts(data, p, limit, bs[..1], bs[1..]);
      if budget > 0 { Varint64Reads(bs[1..], data, p + 1, limit, budget - 1); }
    } else {
      assert bs[1..] == [];
    }
  }

  lemma Varint64AtReads(bs: Bytes, data: Bytes, p: nat, limit: nat)
    requires EndsOnce(bs) && At(data, p, limit, bs)
    ensures Varint64At(data, p, limit) == if |bs| <= 10 then Some((Low64(Digits(bs)), p + |bs|)) else None
  {
    Varint64Reads(bs, data, p, limit, 10);
  }

  // ---- messages are rows of fields ----

  /** Fields in the wire format, under tags of this message type. */
  ghost predicate InForm(l: LType, us: seq<Unknown>)
    requires l.Submessage?
  {
    forall u :: u in us ==> WireOk(u.payload) && 0 < u.tag < MAX_TAG && Find(l.members, u.tag, 0).Some?
  }

  /** The bytes are those fields, one after the other. */
  ghost predicate Reads(l: LType, bs: Bytes, us: seq<Unknown>)
    requires l.Submessage?
  {
    InForm(l, us) && bs == AllBytes(us, |us|)
  }

  lemma {:induction false} AllOfBoth(us: seq<Unknown>, vs: seq<Unknown>, n: nat)
    requires n <= |vs|
    ensures AllBytes(us + vs, |us| + n) == AllBytes(us, |us|) + AllBytes(vs, n)
    decreases n
  {
    hide UnknownBytes;
    if n == 0 {
      AllOfFirst(us, vs, |us|);
      assert AllBytes(us, |us|) + [] == AllBytes(us, |us|);
    } else {
      AllOfBoth(us, vs, n - 1);
      assert (us + vs)[|us| + n - 1] == vs[n - 1];
      assert AllBytes(us, |us|) + AllBytes(vs, n - 1) + UnknownBytes(vs[n - 1])
          == AllBytes(us, |us|) + (AllBytes(vs, n - 1) + UnknownBytes(vs[n - 1]));
    }
  }

  lemma {:induction false} AllOfFirst(us: seq<Unknown>, vs: seq<Unknown>, n: nat)
    requires n <= |us|
    ensures AllBytes(us + vs, n) == AllBytes(us, n)
    decreases n
  {
    hide UnknownBytes;
    if n > 0 { AllOfFirst(us, vs, n - 1); }
  }

  lemma ReadsBoth(l: LType, a: Bytes, us: seq<Unknown>, b: Bytes, vs: seq<Unknown>)
    requires l.Submessage? && Reads(l, a, us) && Reads(l, b, vs)
    ensures Reads(l, a + b, us + vs)
  {
    hide WireOk;
    hide AllBytes;
    AllOfBoth(us, vs, |vs|);
  }

  lemma ReadsNothing(l: LType)
    requires l.Submessage?
    ensures Reads(l, [], [])
  {
  }

  /** An item has exactly the form that its wire type tells pb_skip_field. */
  lemma ItemInForm(l: LType, size: nat, v: Val) returns (payload: Payload)
    requires ValOk(l, size, v) && ValBytes(l, size, v).Some? && |ValBytes(l, size, v).value| < P32
    ensures WireOk(payload) && WireOf(payload) == WireType(l)
            && PayloadBytes(payload) == ValBytes(l, size, v).value
  {
    hide SlotsBytes;
    hide Varint;
    hide EndsOnce;
    hide Fixed32;
    hide Fixed64;
    hide UpToZero;
    var bs := ValBytes(l, size, v).value;
    match l
    case BytesArray => payload := LengthAndBytes(v.bs);
    case CString => payload := LengthAndBytes(UpToZero(v.bs));
    case FixedBytes => payload := LengthAndBytes(v.bs);
    case Submessage(members) => payload := LengthAndBytes(SlotsBytes(l, v.slots, |members|).value);
    case Fixed4 => payload := FourBytes(bs);
    case Fixed8 => payload := EightBytes(bs);
    case SignedVarint =>
      payload := VarintBytes(bs);
      VarintIs(Unsigned64(v.n));
    case ZigZagVarint =>
      payload := VarintBytes(bs);
      VarintIs(ZigZag(v.n));
    case _ =>
      payload := VarintBytes(bs);
      VarintIs(v.n);
  }

  /** pb_skip_field, told the wire type of a field, passes over exactly its encoded item. */
  lemma ItemIsSkipped(l: LType, size: nat, v: Val, data: Bytes, p: nat, limit: nat)
    requires ValOk(l, size, v) && ValBytes(l, size, v).Some? && |data| < P32
    requires At(data, p, limit, ValBytes(l, size, v).value)
    ensures SkipField(WireType(l), data, p, limit) == Some(p + |ValBytes(l, size, v).value|)
  {
    hide ValBytes;
    hide WireType;
    hide SkipField;
    hide WireOk;
    hide PayloadBytes;
    var payload := ItemInForm(l, size, v);
    PayloadPassed(payload, data, p, limit);
  }

  lemma TaggedInForm(l: LType, f: Field, v: Val) returns (us: seq<Unknown>)
    requires l.Submessage? && FieldOk(f) && Find(l.members, f.tag, 0).Some? && ValOk(f.ltype, f.dataSize, v)
    requires TaggedBytes(f, v).Some? && |TaggedBytes(f, v).value| < P32
    ensures Reads(l, TaggedBytes(f, v).value, us)
  {
    hide ValBytes;
    hide WireType;
    hide WireOk;
    hide PayloadBytes;
    hide Find;
    hide ValOk;
    FieldTag(f);
    var payload := ItemInForm(f.ltype, f.dataSize, v);
    us := [Unknown(f.tag, payload)];
    OneOfAll(us[0]);
  }

  lemma FieldTag(f: Field)
    requires FieldOk(f)
    ensures 0 < f.tag < MAX_TAG
  {
  }

  lemma OneOfAll(u: Unknown)
    ensures AllBytes([u], 1) == UnknownBytes(u)
  {
    hide UnknownBytes;
    assert AllBytes([u], 0) + UnknownBytes(u) == UnknownBytes(u);
  }

  lemma {:induction false} ItemsInForm(l: LType, f: Field, items: seq<Val>, n: nat) returns (us: seq<Unknown>)
    requires l.Submessage? && FieldOk(f) && Find(l.members, f.tag, 0).Some? && n <= |items| && ItemsOk(f, items)
    requires ItemsBytes(f, items, n, true).Some? && |ItemsBytes(f, items, n, true).value| < P32
    ensures Reads(l, ItemsBytes(f, items, n, true).value, us)
    decreases n
  {
    hide TaggedBytes;
    hide FieldOk;
    hide Find;
    hide ValOk;
    hide Reads;
    if n == 0 {
      us := [];
      ReadsNothing(l);
    } else {
      us := ItemsInForm(l, f, items, n - 1);
      var last := TaggedInForm(l, f, items[n - 1]);
      ReadsBoth(l, ItemsBytes(f, items, n - 1, true).value, us, TaggedBytes(f, items[n - 1]).value, last);
      us := us + last;
    }
  }

  lemma ArrayInForm(l: LType, f: Field, arraySize: nat, items: seq<Val>, count: nat) returns (us: seq<Unknown>)
    requires l.Submessage? && FieldOk(f) && Find(l.members, f.tag, 0).Some? && |items| == arraySize
             && ItemsOk(f, items)
    requires ArrayBytes(f, arraySize, items, count).Some? && |ArrayBytes(f, arraySize, items, count).value| < P32
    ensures Reads(l, ArrayBytes(f, arraySize, items, count).value, us)
  {
    hide ItemsBytes;
    hide FieldOk;
    hide Find;
    hide ValOk;
    hide TagBytes;
    hide Varint;
    hide AllBytes;
    if count == 0 {
      us := [];
      ReadsNothing(l);
    } else if Packable(f.ltype) {
      FieldTag(f);
      us := [Unknown(f.tag, LengthAndBytes(ItemsBytes(f, items, count, false).value))];
      OneOfAll(us[0]);
    } else {
      us := ItemsInForm(l, f, items, count);
    }
  }

  lemma {:induction false} UnionInForm(l: LType, i: nat, s: Slot, n: nat) returns (us: seq<Unknown>)
    requires l.Submessage? && TypeOk(l) && i < |l.members| && l.members[i].Union? && n <= |l.members[i].fields|
             && SlotOk(l, i, s)
    requires UnionBytes(l, i, s, n).Some? && |UnionBytes(l, i, s, n).value| < P32
    ensures Reads(l, UnionBytes(l, i, s, n).value, us)
    decreases n
  {
    hide TaggedBytes;
    hide Find;
    hide ValOk;
    hide Reads;
    hide TypeOk;
    if n == 0 {
      us := [];
      ReadsNothing(l);
    } else {
      var f := l.members[i].fields[n - 1];
      us := UnionInForm(l, i, s, n - 1);
      UnionFacts(l, i, n - 1);
      FindBack(l, i, n - 1, f.tag);
      var last: seq<Unknown> := [];
      ReadsNothing(l);
      if s.which == f.tag { last := TaggedInForm(l, f, s.u); }
      ReadsBoth(l, UnionBytes(l, i, s, n - 1).value, us,
                if s.which == f.tag then TaggedBytes(f, s.u).value else [], last);
      us := us + last;
    }
  }

  lemma SlotInForm(l: LType, i: nat, s: Slot) returns (us: seq<Unknown>)
    requires l.Submessage? && TypeOk(l) && i < |l.members| && SlotOk(l, i, s)
    requires SlotBytes(l, i, s).Some? && |SlotBytes(l, i, s).value| < P32
    ensures Reads(l, SlotBytes(l, i, s).value, us)
  {
    hide TaggedBytes;
    hide ArrayBytes;
    hide UnionBytes;
    hide Find;
    hide ValOk;
    hide Reads;
    hide FieldOk;
    hide IsDefault;
    ReadsNothing(l);
    us := [];
    assert MemberOk(l, i);
    match l.members[i]
    case Union(fields) => us := UnionInForm(l, i, s, |fields|);
    case Plain(f, rule, arraySize) =>
      FieldFacts(l, i);
      FindBack(l, i, 0, f.tag);
      if rule.Repeated? || rule.FixedCount? {
        us := ArrayInForm(l, f, arraySize, s.items, if rule.Repeated? then s.count else arraySize);
      } else if rule.Required? || (rule.Singular? && !IsDefault(f.ltype, f.dataSize, s.v)) {
        us := TaggedInForm(l, f, s.v);
      } else if rule.Optional? && s.has {
        us := TaggedInForm(l, f, s.o);
      }
  }

  lemma {:induction false} SlotsInForm(l: LType, slots: seq<Slot>, n: nat) returns (us: seq<Unknown>)
    requires l.Submessage? && TypeOk(l) && SlotsOk(l, slots) && n <= |slots|
    requires SlotsBytes(l, slots, n).Some? && |SlotsBytes(l, slots, n).value| < P32
    ensures Reads(l, SlotsBytes(l, slots, n).value, us)
    decreases n
  {
    hide TypeOk;
    hide SlotOk;
    hide SlotBytes;
    hide Reads;
    if n == 0 {
      us := [];
      ReadsNothing(l);
    } else {
      us := SlotsInForm(l, slots, n - 1);
      var last := SlotInForm(l, n - 1, slots[n - 1]);
      ReadsBoth(l, SlotsBytes(l, slots, n - 1).value, us, SlotBytes(l, n - 1, slots[n - 1]).value, last);
      us := us + last;
    }
  }

  /** A decoder for a type with none of these tags passes over all of a message and changes
      nothing, wherever the message stands. */
  lemma ForeignMessagePassed(l: LType, v: Val, other: LType, st: State, data: Bytes, p: nat, limit: nat)
    requires l.Submessage? && TypeOk(l) && ValOk(l, 0, v) && MessageBytes(l, v).Some? && |data| < P32
    requires other.Submessage? && TypeOk(other) && StateOk(other, st)
    requires forall tag :: Find(l.members, tag, 0).Some? ==> Find(other.members, tag, 0) == None
    requires At(data, p, limit, MessageBytes(l, v).value)
    ensures p + |MessageBytes(l, v).value| <= limit <= |data|
    ensures LoopAt(other, st, data, p, limit) == LoopAt(other, st, data, p + |MessageBytes(l, v).value|, limit)
  {
    hide TypeOk;
    hide StateOk;
    hide SlotsOk;
    hide SlotsBytes;
    hide Find;
    hide LoopAt;
    hide AllBytes;
    hide WireOk;
    CountIs(l, v.slots);
    var us := SlotsInForm(l, v.slots, |l.members|);
    AllPassed(other, us, |us|, st, data, p, limit);
  }
}
