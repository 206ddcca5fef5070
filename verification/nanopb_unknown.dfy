/** Fields a message type does not have (pb_decode.c): pb_decode passes over them, wherever
    they stand between the members of an encoded message. */
module NanopbUnknown {
  import opened InternalKeys
  import opened Coding
  import opened NanopbMessages
  import opened NanopbDecode
  import opened NanopbRoundTrip

  // ---- fields of any number ----

  /** What follows a tag on the wire. */
  datatype Payload = VarintBytes(bs: Bytes) | EightBytes(bs: Bytes) | FourBytes(bs: Bytes) | LengthAndBytes(bs: Bytes)

  datatype Unknown = Unknown(tag: Word, payload: Payload)

  /** A varint, of any length: only its last byte is below 128. */
  predicate EndsOnce(bs: Bytes) {
    bs != [] && bs[|bs| - 1] < 128 && forall k :: 0 <= k < |bs| - 1 ==> bs[k] >= 128
  }

  predicate WireOk(payload: Payload) {
    match payload
    case VarintBytes(bs) => EndsOnce(bs)
    case EightBytes(bs) => |bs| == 8
    case FourBytes(bs) => |bs| == 4
    case LengthAndBytes(bs) => |bs| < P32
  }

  function WireOf(payload: Payload): nat {
    match payload case VarintBytes(_) => 0 case EightBytes(_) => 1 case FourBytes(_) => 5 case LengthAndBytes(_) => 2
  }

  function PayloadBytes(payload: Payload): Bytes {
    if payload.LengthAndBytes? then Delimited(payload.bs) else payload.bs
  }

  function UnknownBytes(u: Unknown): Bytes { TagBytes(WireOf(u.payload), u.tag) + PayloadBytes(u.payload) }

  /** A field number no member of this type has. */
  predicate IsUnknown(l: LType, u: Unknown)
    requires l.Submessage?
  {
    0 < u.tag < MAX_TAG && WireOk(u.payload) && Find(l.members, u.tag, 0) == None
  }

  function AllBytes(us: seq<Unknown>, n: nat): Bytes
    requires n <= |us|
  { if n == 0 then [] else AllBytes(us, n - 1) + UnknownBytes(us[n - 1]) }

  // ---- one of them is passed over ----

  lemma {:induction false} VarintPassed(bs: Bytes, data: Bytes, p: nat, limit: nat)
    requires EndsOnce(bs) && At(data, p, limit, bs)
    ensures SkipVarint(data, p, limit) == Some(p + |bs|)
    decreases |bs|
  {
    assert data[p] == data[p..p + |bs|][0];
    if |bs| > 1 {
      AtParts(data, p, limit, bs[..1], bs[1..]) by { assert bs[..1] + bs[1..] == bs; }
      VarintPassed(bs[1..], data, p + 1, limit);
    }
  }

  lemma PayloadPassed(payload: Payload, data: Bytes, p: nat, limit: nat)
    requires WireOk(payload) && At(data, p, limit, PayloadBytes(payload)) && |data| < P32
    ensures SkipField(WireOf(payload), data, p, limit) == Some(p + |PayloadBytes(payload)|)
  {
    hide SkipVarint;
    hide Varint32At;
    hide EndsOnce;
    hide Delimited;
    match payload
    case VarintBytes(bs) => VarintPassed(bs, data, p, limit);
    case LengthAndBytes(bs) => DelimitedBack(data, p, limit, bs);
    case _ =>
  }

  lemma UnknownPassed(l: LType, u: Unknown, st: State, data: Bytes, p: nat, limit: nat)
    requires l.Submessage? && TypeOk(l) && StateOk(l, st) && IsUnknown(l, u)
    requires At(data, p, limit, UnknownBytes(u)) && |data| < P32
    ensures LoopAt(l, st, data, p, limit) == LoopAt(l, st, data, p + |UnknownBytes(u)|, limit)
  {
    hide TagAt;
    hide Find;
    hide MemberAt;
    hide TypeOk;
    hide StateOk;
    hide SkipField;
    hide TagBytes;
    hide PayloadBytes;
    hide WireOk;
    hide At;
    var wire, tag := WireOf(u.payload), TagBytes(WireOf(u.payload), u.tag);
    AtParts(data, p, limit, tag, PayloadBytes(u.payload));
    TagBack(data, p, limit, wire, u.tag);
    TagNotEmpty(wire, u.tag);
    PayloadPassed(u.payload, data, p + |tag|, limit);
  }

  lemma {:induction false} AllPassed(l: LType, us: seq<Unknown>, n: nat, st: State, data: Bytes, p: nat, limit: nat)
    requires l.Submessage? && TypeOk(l) && StateOk(l, st) && n <= |us| && forall u :: u in us ==> IsUnknown(l, u)
    requires At(data, p, limit, AllBytes(us, n)) && |data| < P32
    ensures p + |AllBytes(us, n)| <= limit <= |data|
    ensures LoopAt(l, st, data, p, limit) == LoopAt(l, st, data, p + |AllBytes(us, n)|, limit)
    decreases n
  {
    hide LoopAt;
    hide TypeOk;
    hide StateOk;
    hide UnknownBytes;
    hide IsUnknown;
    hide At;
    AtFits(data, p, limit, AllBytes(us, n));
    if n > 0 {
      var before := AllBytes(us, n - 1);
      AtParts(data, p, limit, before, UnknownBytes(us[n - 1]));
      AllPassed(l, us, n - 1, st, data, p, limit);
      UnknownPassed(l, us[n - 1], st, data, p + |before|, limit);
    }
  }

  // ---- among the members of a message ----

  predicate GapsOk(l: LType, gaps: seq<seq<Unknown>>)
    requires l.Submessage?
  {
    |gaps| == |l.members| + 1 && forall i, u :: 0 <= i < |gaps| && u in gaps[i] ==> IsUnknown(l, u)
  }

  /** The first n members, each behind the unknown fields of its gap. */
  function MixedBytes(l: LType, slots: seq<Slot>, gaps: seq<seq<Unknown>>, n: nat): Option<Bytes>
    requires l.Submessage? && SlotsOk(l, slots) && n <= |slots| <= |gaps|
  {
    if n == 0 then Some([])
    else Join(MixedBytes(l, slots, gaps, n - 1),
              Join(Some(AllBytes(gaps[n - 1], |gaps[n - 1]|)), SlotBytes(l, n - 1, slots[n - 1])))
  }

  /** All members, with more unknown fields behind the last. */
  function PaddedBytes(l: LType, v: Val, gaps: seq<seq<Unknown>>): Option<Bytes>
    requires l.Submessage? && ValOk(l, 0, v) && |gaps| == |l.members| + 1
  {
    var n := |l.members|;
    Join(MixedBytes(l, v.slots, gaps, n), Some(AllBytes(gaps[n], |gaps[n]|)))
  }

  /** Without unknown fields this is what pb_encode writes. */
  lemma {:induction false} NoGaps(l: LType, slots: seq<Slot>, gaps: seq<seq<Unknown>>, n: nat)
    requires l.Submessage? && SlotsOk(l, slots) && n <= |slots| <= |gaps|
    ensures (MixedBytes(l, slots, gaps, n).Some? <==> SlotsBytes(l, slots, n).Some?)
    ensures (forall i :: 0 <= i < n ==> gaps[i] == []) ==> MixedBytes(l, slots, gaps, n) == SlotsBytes(l, slots, n)
    decreases n
  {
    if n > 0 {
      hide SlotBytes;
      NoGaps(l, slots, gaps, n - 1);
      NothingJoined(SlotBytes(l, n - 1, slots[n - 1]));
    }
  }

  lemma {:induction false} MixedBack(l: LType, vs: seq<Slot>, ds: seq<Slot>, gaps: seq<seq<Unknown>>, data: Bytes,
                                     limit: nat, n: nat)
    returns (st: State)
    requires l.Submessage? && TypeOk(l) && SlotsOk(l, vs) && SlotsOk(l, ds) && SlotsBlank(l, ds) && |data| < P32
    requires n <= |vs| <= |gaps| && GapsOk(l, gaps)
    requires MixedBytes(l, vs, gaps, n).Some? && At(data, 0, limit, MixedBytes(l, vs, gaps, n).value)
    ensures SlotsTerminated(l, vs, n) ==> (Progress(l, vs, ds, st, n) && SeenAll(l.members, st.seen, n)
            && LoopAt(l, State(ds, None, 0, {}), data, 0, limit)
               == LoopAt(l, st, data, |MixedBytes(l, vs, gaps, n).value|, limit))
    ensures !SlotsTerminated(l, vs, n) ==> LoopAt(l, State(ds, None, 0, {}), data, 0, limit) == None
    decreases n
  {
    hide TypeOk;
    hide LoopAt;
    hide At;
    hide SlotOk;
    hide SlotBytes;
    hide SlotTerminated;
    hide SlotsBlank;
    hide SameSlot;
    hide AllBytes;
    hide IsUnknown;
    st := State(ds, None, 0, {});
    if n > 0 {
      var before, gap, slot := MixedBytes(l, vs, gaps, n - 1).value, AllBytes(gaps[n - 1], |gaps[n - 1]|),
          SlotBytes(l, n - 1, vs[n - 1]).value;
      AtParts(data, 0, limit, before, gap + slot);
      AtParts(data, |before|, limit, gap, slot);
      st := MixedBack(l, vs, ds, gaps, data, limit, n - 1);
      if SlotsTerminated(l, vs, n - 1) {
        AllPassed(l, gaps[n - 1], |gaps[n - 1]|, st, data, |before|, limit);
        OneMoreSeen(l.members, st.seen, n - 1);
        st := SlotBack(l, vs, ds, st, data, |before| + |gap|, limit, n - 1);
      }
    }
  }

  lemma PaddedBack(l: LType, v: Val, ds: seq<Slot>, gaps: seq<seq<Unknown>>, data: Bytes) returns (rs: seq<Slot>)
    requires l.Submessage? && TypeOk(l) && ValOk(l, 0, v) && SlotsOk(l, ds) && SlotsBlank(l, ds) && GapsOk(l, gaps)
    requires PaddedBytes(l, v, gaps) == Some(data) && |data| < P32
    ensures Terminated(l, 0, v) ==> (SlotsOk(l, rs) && SameSlots(l, v.slots, rs)
                                     && MessageAt(l, ds, data, 0, |data|) == Some(rs))
    ensures !Terminated(l, 0, v) ==> MessageAt(l, ds, data, 0, |data|) == None
  {
    hide SlotsTerminated;
    hide LoopAt;
    hide TypeOk;
    hide At;
    hide SlotOk;
    hide SlotTerminated;
    hide SlotsBlank;
    hide SameSlot;
    hide MixedBytes;
    hide AllBytes;
    hide IsUnknown;
    var n := |l.members|;
    var mixed, more := MixedBytes(l, v.slots, gaps, n).value, AllBytes(gaps[n], |gaps[n]|);
    CountIs(l, v.slots);
    AtStart(data);
    AtParts(data, 0, |data|, mixed, more);
    var st := MixedBack(l, v.slots, ds, gaps, data, |data|, n);
    rs := st.slots;
    if Terminated(l, 0, v) {
      AllPassed(l, gaps[n], |gaps[n]|, st, data, |mixed|, |data|);
      AtEnd(l, st, data);
    }
  }

  lemma AtStart(data: Bytes)
    ensures At(data, 0, |data|, data)
  {
    assert data[0..0 + |data|] == data;
  }

  lemma AtEnd(l: LType, st: State, data: Bytes)
    requires l.Submessage? && TypeOk(l) && StateOk(l, st)
    ensures LoopAt(l, st, data, |data|, |data|) == Some(st)
  {
  }

  /** Unknown fields before, between and behind the members of an encoded message change
      nothing: pb_decode restores it exactly when every string in it is terminated. */
  lemma UnknownFieldsIff(l: LType, v: Val, was: Val, gaps: seq<seq<Unknown>>) returns (r: Val)
    requires l.Submessage? && TypeOk(l) && ValOk(l, 0, v) && ValOk(l, 0, was) && GapsOk(l, gaps)
    requires PaddedBytes(l, v, gaps).Some? && |PaddedBytes(l, v, gaps).value| < P32
    ensures Terminated(l, 0, v) ==>
              ValOk(l, 0, r) && SameVal(l, 0, v, r) && Decoded(l, was, PaddedBytes(l, v, gaps).value) == Some(r)
    ensures !Terminated(l, 0, v) ==> Decoded(l, was, PaddedBytes(l, v, gaps).value) == None
  {
    hide TypeOk;
    hide SlotsOk;
    hide SlotsBlank;
    hide SameSlots;
    hide SlotsTerminated;
    hide PaddedBytes;
    hide MessageAt;
    hide Defaults;
    var ds := Defaults(l, was.slots);
    DefaultsAreBlank(l, was.slots);
    var slots := PaddedBack(l, v, ds, gaps, PaddedBytes(l, v, gaps).value);
    r := Struct(slots);
  }
}
