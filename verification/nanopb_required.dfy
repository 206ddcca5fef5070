/** The checks at the end of pb_decode_noinit (pb_decode.c): a message in which a required
    field is missing, or the items of a fixed count array are not all there, is refused. */
module NanopbRequired {
  import opened InternalKeys
  import opened Coding
  import opened NanopbMessages
  import opened NanopbDecode
  import opened NanopbRoundTrip
  import opened NanopbBoundaries
  import opened NanopbEquality

  // ---- required fields ----

  /** How many required fields stand before member i. */
  ghost function Rank(l: LType, i: nat): nat
    requires l.Submessage? && i <= |l.members|
  {
    |set m: nat | m < i && l.members[m].Plain? && l.members[m].rule.Required?|
  }

  lemma {:induction false} RankIs(l: LType, i: nat)
    requires l.Submessage? && i <= |l.members|
    ensures RequiredBefore(l.members, i) == Rank(l, i)
  {
    var before := set m: nat | m < i && l.members[m].Plain? && l.members[m].rule.Required?;
    if i > 0 {
      RankIs(l, i - 1);
      var less := set m: nat | m < i - 1 && l.members[m].Plain? && l.members[m].rule.Required?;
      forall m: nat ensures m in before <==> m in less || (m == i - 1 && IsRequired(l.members[m])) {}
      if IsRequired(l.members[i - 1]) { assert before == less + {i - 1}; } else { assert before == less; }
    } else {
      assert before == {};
    }
  }

  lemma {:induction false} RankGrows(members: seq<Member>, i: nat, k: nat)
    requires i <= k <= |members|
    ensures RequiredBefore(members, i) <= RequiredBefore(members, k)
    decreases k - i
  {
    if i < k { RankGrows(members, i, k - 1); }
  }

  lemma RankTells(members: seq<Member>, i: nat, k: nat)
    requires i < |members| && k < |members| && IsRequired(members[i]) && IsRequired(members[k])
    requires RequiredBefore(members, i) == RequiredBefore(members, k)
    ensures i == k
  {
    hide RequiredBefore;
    RankRises(members, i, k);
    RankRises(members, k, i);
  }

  lemma RankRises(members: seq<Member>, i: nat, k: nat)
    requires i < |members| && k <= |members| && IsRequired(members[i])
    ensures i < k ==> RequiredBefore(members, i) < RequiredBefore(members, k)
  {
    if i < k { RankGrows(members, i + 1, k); }
  }

  /** Member i is one of the required fields that pb_decode keeps track of. */
  ghost predicate Tracked(l: LType, i: nat)
    requires l.Submessage? && i < |l.members|
  {
    l.members[i].Plain? && l.members[i].rule.Required? && Rank(l, i) < 64
  }

  /** The loop, begun at p, comes to a tag of member i. */
  ghost predicate Met(l: LType, st: State, data: Bytes, p: nat, limit: nat, i: nat)
    requires l.Submessage? && TypeOk(l) && StateOk(l, st) && p <= limit <= |data| && i < |l.members|
  {
    exists q: nat :: q < limit && Reaches(l, st, data, p, limit, q) && TagOf(l, data, q, limit, i)
  }

  ghost predicate TagOf(l: LType, data: Bytes, q: nat, limit: nat, i: nat)
    requires l.Submessage? && limit <= |data| && i < |l.members|
  {
    var t := TagAt(data, q, limit);
    t.Tag? && exists j: nat :: HasTag(l.members[i], j, t.tag)
  }

  /** A field changes what has been seen only if it is required. */
  lemma FieldSees(l: LType, st: State, t: TagRead, data: Bytes, limit: nat)
    requires l.Submessage? && TypeOk(l) && StateOk(l, st) && t.Tag? && t.next <= limit <= |data|
    requires FieldEnd(l, st, t, data, limit).Some?
    ensures var seen, ij := FieldEnd(l, st, t, data, limit).value.0.seen, Find(l.members, t.tag, 0);
            seen == if ij.Some? then SeenNext(l.members, st.seen, ij.value.0) else st.seen
  {
    hide ValAt;
    hide ItemsAt;
    hide Find;
    hide SkipField;
    hide Defaults;
    hide ZeroVal;
    hide RequiredBefore;
  }

  lemma {:induction false} SeenWasMet(l: LType, st: State, data: Bytes, p: nat, limit: nat, i: nat)
    requires l.Submessage? && TypeOk(l) && StateOk(l, st) && p <= limit <= |data| && i < |l.members|
    requires IsRequired(l.members[i]) && LoopAt(l, st, data, p, limit).Some?
    requires RequiredBefore(l.members, i) in LoopAt(l, st, data, p, limit).value.seen
    requires RequiredBefore(l.members, i) !in st.seen
    ensures Met(l, st, data, p, limit, i)
    decreases limit - p
  {
    hide TagAt;
    hide FieldEnd;
    hide TypeOk;
    hide StateOk;
    hide HasTag;
    hide RequiredBefore;
    LoopGoesOn(l, st, data, p, limit);
    var t := TagAt(data, p, limit);
    var r := FieldEnd(l, st, t, data, limit).value;
    FieldSees(l, st, t, data, limit);
    if RequiredBefore(l.members, i) in r.0.seen {
      var ij := Find(l.members, t.tag, 0).value;
      RankTells(l.members, i, ij.0);
      assert Reaches(l, st, data, p, limit, p) && TagOf(l, data, p, limit, i);
    } else {
      SeenWasMet(l, r.0, data, r.1, limit, i);
      var q: nat :| q < limit && Reaches(l, r.0, data, r.1, limit, q) && TagOf(l, data, q, limit, i);
      ReachesUp(l, r.0, data, r.1, limit, q);
      assert Reaches(l, st, data, p, limit, q);
    }
  }

  /** The loop has ended here, or goes on behind a field. */
  lemma LoopGoesOn(l: LType, st: State, data: Bytes, p: nat, limit: nat)
    requires l.Submessage? && TypeOk(l) && StateOk(l, st) && p <= limit <= |data| && LoopAt(l, st, data, p, limit).Some?
    ensures var t := TagAt(data, p, limit);
            if p < limit && t.Tag? then
              var r := FieldEnd(l, st, t, data, limit);
              r.Some? && LoopAt(l, st, data, p, limit) == LoopAt(l, r.value.0, data, r.value.1, limit)
            else LoopAt(l, st, data, p, limit) == Some(st)
  {
    hide TagAt;
    hide Find;
    hide MemberAt;
    hide SkipField;
    hide TypeOk;
    hide StateOk;
  }

  lemma {:induction false} MetIsSeen(l: LType, st: State, data: Bytes, p: nat, limit: nat, i: nat, q: nat)
    requires l.Submessage? && TypeOk(l) && StateOk(l, st) && p <= limit <= |data| && i < |l.members|
    requires IsRequired(l.members[i]) && RequiredBefore(l.members, i) < MAX_REQUIRED
             && LoopAt(l, st, data, p, limit).Some?
    requires q < limit && Reaches(l, st, data, p, limit, q) && TagOf(l, data, q, limit, i)
    ensures RequiredBefore(l.members, i) in LoopAt(l, st, data, p, limit).value.seen
    decreases limit - p
  {
    hide TagAt;
    hide FieldEnd;
    hide TypeOk;
    hide StateOk;
    hide RequiredBefore;
    LoopGoesOn(l, st, data, p, limit);
    var t := TagAt(data, p, limit);
    if p == q {
      var j: nat :| HasTag(l.members[i], j, t.tag);
      FindBack(l, i, j, t.tag);
      var r := FieldEnd(l, st, t, data, limit).value;
      FieldSees(l, st, t, data, limit);
      SeenStays(l, r.0, data, r.1, limit);
    } else {
      ReachesTurn(l, st, data, p, limit, q);
      var r := FieldEnd(l, st, t, data, limit).value;
      MetIsSeen(l, r.0, data, r.1, limit, i, q);
    }
  }

  lemma {:induction false} SeenStays(l: LType, st: State, data: Bytes, p: nat, limit: nat)
    requires l.Submessage? && TypeOk(l) && StateOk(l, st) && p <= limit <= |data| && LoopAt(l, st, data, p, limit).Some?
    ensures st.seen <= LoopAt(l, st, data, p, limit).value.seen
    decreases limit - p
  {
    hide TagAt;
    hide FieldEnd;
    hide TypeOk;
    hide StateOk;
    hide RequiredBefore;
    LoopGoesOn(l, st, data, p, limit);
    var t := TagAt(data, p, limit);
    if p < limit && t.Tag? {
      var r := FieldEnd(l, st, t, data, limit).value;
      FieldSees(l, st, t, data, limit);
      SeenStays(l, r.0, data, r.1, limit);
    }
  }

  /** For every type, buffer and struct: pb_decode_noinit accepts exactly if its loop comes to
      an end, each of the first 64 required fields has its tag at one of the places where the
      loop stands, and the fixed count array it was in last is full. */
  lemma DecodesIff(l: LType, slots: seq<Slot>, data: Bytes, p: nat, limit: nat)
    requires l.Submessage? && TypeOk(l) && SlotsOk(l, slots) && p <= limit <= |data|
    ensures var start := State(slots, None, 0, {}); var end := LoopAt(l, start, data, p, limit);
            MessageAt(l, slots, data, p, limit).Some?
            <==> end.Some?
                 && (forall i: nat :: i < |l.members| && Tracked(l, i) ==> Met(l, start, data, p, limit, i))
                 && (end.value.fixedField.Some? ==>
                       end.value.fixedSize == l.members[end.value.fixedField.value].arraySize)
  {
    hide LoopAt;
    hide TypeOk;
    hide SlotsOk;
    hide Reaches;
    hide TagOf;
    hide Rank;
    hide RequiredBefore;
    var start := State(slots, None, 0, {});
    var end := LoopAt(l, start, data, p, limit);
    if end.Some? {
      forall i: nat | i < |l.members| && Tracked(l, i)
        ensures Met(l, start, data, p, limit, i) <==> RequiredBefore(l.members, i) in end.value.seen
        ensures RequiredBefore(l.members, i) == Rank(l, i)
      {
        RankIs(l, i);
        if RequiredBefore(l.members, i) in end.value.seen { SeenWasMet(l, start, data, p, limit, i); }
        if q: nat :| q < limit && Reaches(l, start, data, p, limit, q) && TagOf(l, data, q, limit, i) {
          MetIsSeen(l, start, data, p, limit, i, q);
        }
      }
      RanksCover(l, end.value);
    }
  }

  /** What is asked for at the end is asked of the required fields, one by one. */
  lemma RanksCover(l: LType, st: State)
    requires l.Submessage? && StateOk(l, st)
    ensures Complete(l, st)
            <==> (st.fixedField.Some? ==> st.fixedSize == l.members[st.fixedField.value].arraySize)
                 && forall i: nat :: i < |l.members| && Tracked(l, i) ==> RequiredBefore(l.members, i) in st.seen
  {
    hide Rank;
    hide RequiredBefore;
    hide StateOk;
    forall i: nat | i < |l.members| && IsRequired(l.members[i])
      ensures RequiredBefore(l.members, i) == Rank(l, i) < RequiredBefore(l.members, |l.members|)
    {
      RankIs(l, i);
      RankRises(l.members, i, |l.members|);
    }
    if forall i: nat :: i < |l.members| && Tracked(l, i) ==> RequiredBefore(l.members, i) in st.seen {
      forall k | 0 <= k < RequiredBefore(l.members, |l.members|) && k < MAX_REQUIRED ensures k in st.seen {
        var i := OfRank(l.members, |l.members|, k);
        assert Tracked(l, i);
      }
    }
  }

  lemma {:induction false} OfRank(members: seq<Member>, n: nat, k: nat) returns (i: nat)
    requires n <= |members| && k < RequiredBefore(members, n)
    ensures i < n && IsRequired(members[i]) && RequiredBefore(members, i) == k
  {
    if k < RequiredBefore(members, n - 1) { i := OfRank(members, n - 1, k); } else { i := n - 1; }
  }

  /** pb_decode has met each of those fields, wherever the bytes come from. */
  lemma RequiredIsThere(l: LType, was: Val, data: Bytes, i: nat)
    requires l.Submessage? && TypeOk(l) && ValOk(l, 0, was) && i < |l.members| && Tracked(l, i)
    requires Decoded(l, was, data).Some?
    ensures exists q: nat :: q < |data| && IsBoundary(l, was, data, q) && TagOf(l, data, q, |data|, i)
  {
    hide TypeOk;
    hide ValOk;
    hide SlotsOk;
    hide LoopAt;
    hide Reaches;
    hide TagOf;
    hide Rank;
    hide MessageAt;
    var start := Start(l, was);
    DecodesIff(l, start.slots, data, 0, |data|);
    var q: nat :| q < |data| && Reaches(l, start, data, 0, |data|, q) && TagOf(l, data, q, |data|, i);
    assert IsBoundary(l, was, data, q);
  }

  // ---- a message with one required field left out ----

  /** The first n members without member i. */
  function BytesBut(l: LType, slots: seq<Slot>, n: nat, i: nat): Option<Bytes>
    requires l.Submessage? && SlotsOk(l, slots) && n <= |slots|
  {
    if n == 0 then Some([])
    else if n - 1 == i then BytesBut(l, slots, n - 1, i)
    else Join(BytesBut(l, slots, n - 1, i), SlotBytes(l, n - 1, slots[n - 1]))
  }

  ghost predicate OthersTerminated(l: LType, slots: seq<Slot>, n: nat, i: nat)
    requires l.Submessage? && SlotsOk(l, slots) && n <= |slots|
  {
    forall m :: 0 <= m < n && m != i ==> SlotTerminated(l, m, slots[m])
  }

  /** All tracked fields of the first n members but i. */
  ghost predicate SeenBut(members: seq<Member>, seen: set<nat>, n: nat, i: nat)
    requires n <= |members| && i < |members|
  {
    forall k: nat ::
      k in seen <==> k < RequiredBefore(members, n) && k < MAX_REQUIRED && !(i < n && k == RequiredBefore(members, i))
  }

  lemma OneMoreBut(members: seq<Member>, seen: set<nat>, n: nat, i: nat)
    requires n < |members| && i < |members| && IsRequired(members[i]) && SeenBut(members, seen, n, i)
    ensures SeenBut(members, if n == i then seen else SeenNext(members, seen, n), n + 1, i)
  {
    RankRises(members, i, n);
    assert RequiredBefore(members, n + 1) == RequiredBefore(members, n) + if IsRequired(members[n]) then 1 else 0;
  }

  lemma {:induction false} ButBack(l: LType, vs: seq<Slot>, ds: seq<Slot>, data: Bytes, limit: nat, n: nat, i: nat)
    returns (st: State)
    requires l.Submessage? && TypeOk(l) && SlotsOk(l, vs) && SlotsOk(l, ds) && SlotsBlank(l, ds) && |data| < P32
    requires n <= |vs| == |ds| == |l.members| && i < |vs| && IsRequired(l.members[i]) && vs[i] == ds[i]
    requires BytesBut(l, vs, n, i).Some? && At(data, 0, limit, BytesBut(l, vs, n, i).value)
    ensures OthersTerminated(l, vs, n, i) ==> (Progress(l, vs, ds, st, n) && SeenBut(l.members, st.seen, n, i)
            && LoopAt(l, State(ds, None, 0, {}), data, 0, limit)
               == LoopAt(l, st, data, |BytesBut(l, vs, n, i).value|, limit))
    ensures !OthersTerminated(l, vs, n, i) ==> LoopAt(l, State(ds, None, 0, {}), data, 0, limit) == None
    decreases n
  {
    hide TypeOk;
    hide LoopAt;
    hide At;
    hide SlotBytes;
    hide SlotTerminated;
    hide SlotsBlank;
    hide SlotsOk;
    hide Progress;
    hide SeenNext;
    hide SeenBut;
    st := State(ds, None, 0, {});
    if n == 0 {
      NothingYet(l, vs, ds, i);
    } else {
      var before := BytesBut(l, vs, n - 1, i).value;
      if n - 1 == i {
        st := ButBack(l, vs, ds, data, limit, n - 1, i);
        if OthersTerminated(l, vs, n - 1, i) {
          LeaveOut(l, vs, ds, st, i);
          OneMoreBut(l.members, st.seen, n - 1, i);
        }
      } else {
        OneSlot(l, vs, n - 1);
        AtParts(data, 0, limit, before, SlotBytes(l, n - 1, vs[n - 1]).value);
        st := ButBack(l, vs, ds, data, limit, n - 1, i);
        if OthersTerminated(l, vs, n - 1, i) {
          OneMoreBut(l.members, st.seen, n - 1, i);
          st := SlotBack(l, vs, ds, st, data, |before|, limit, n - 1);
        }
      }
    }
  }

  lemma OneSlot(l: LType, vs: seq<Slot>, n: nat)
    requires l.Submessage? && SlotsOk(l, vs) && n < |vs|
    ensures n < |l.members| && SlotOk(l, n, vs[n])
  {
    hide SlotOk;
  }

  lemma NothingYet(l: LType, vs: seq<Slot>, ds: seq<Slot>, i: nat)
    requires l.Submessage? && SlotsOk(l, vs) && SlotsOk(l, ds) && |vs| == |ds| == |l.members| && i < |vs|
    ensures Progress(l, vs, ds, State(ds, None, 0, {}), 0) && SeenBut(l.members, {}, 0, i)
  {
    hide SlotOk;
  }

  lemma LeaveOut(l: LType, vs: seq<Slot>, ds: seq<Slot>, st: State, i: nat)
    requires l.Submessage? && TypeOk(l) && i < |l.members| && SlotsOk(l, vs) && SlotsOk(l, ds) && SlotsBlank(l, ds)
    requires Progress(l, vs, ds, st, i) && vs[i] == ds[i]
    ensures Progress(l, vs, ds, st, i + 1)
  {
    hide TypeOk;
    hide SlotsOk;
    hide SlotOk;
    hide SlotsBlank;
    hide SlotBlank;
    hide SameSlot;
    hide Progress;
    SlotAsDefault(l, vs, ds, st, i);
    SlotSame(l, i, ds[i]);
    assert st.slots[i := ds[i]] == st.slots;
    OneSlotMore(l, vs, ds, st, i, ds[i], st);
  }

  lemma {:induction false} ButSame(l: LType, vs: seq<Slot>, ws: seq<Slot>, n: nat, i: nat)
    requires l.Submessage? && SlotsOk(l, vs) && SlotsOk(l, ws) && n <= |vs| == |ws|
    requires forall m :: 0 <= m < |vs| && m != i ==> ws[m] == vs[m]
    ensures BytesBut(l, ws, n, i) == BytesBut(l, vs, n, i)
    ensures OthersTerminated(l, ws, n, i) <==> OthersTerminated(l, vs, n, i)
    decreases n
  {
    hide SlotOk;
    hide SlotBytes;
    hide SlotTerminated;
    if n > 0 { ButSame(l, vs, ws, n - 1, i); }
  }

  /** The bytes of a message without those of one required field are refused; only if 64
      others stand before it is it not missed. */
  lemma RequiredLeftOut(l: LType, v: Val, was: Val, i: nat)
    requires l.Submessage? && TypeOk(l) && ValOk(l, 0, v) && ValOk(l, 0, was)
    requires i < |l.members| == |v.slots| && l.members[i].Plain? && l.members[i].rule.Required?
    requires BytesBut(l, v.slots, |v.slots|, i).Some? && |BytesBut(l, v.slots, |v.slots|, i).value| < P32
    ensures Decoded(l, was, BytesBut(l, v.slots, |v.slots|, i).value).Some?
            <==> Rank(l, i) >= 64 && OthersTerminated(l, v.slots, |v.slots|, i)
  {
    hide TypeOk;
    hide SlotsOk;
    hide SlotOk;
    hide SlotsBlank;
    hide LoopAt;
    hide At;
    hide Progress;
    hide SeenBut;
    hide OthersTerminated;
    hide BytesBut;
    hide Complete;
    hide Rank;
    hide Defaults;
    var n, ds := |l.members|, Defaults(l, was.slots);
    var data := BytesBut(l, v.slots, n, i).value;
    DefaultsAreBlank(l, was.slots);
    CountIs(l, ds);
    OneSlot(l, ds, i);
    SlotsStayOk(l, v.slots, i, ds[i]);
    var vs := v.slots[i := ds[i]];
    ButSame(l, v.slots, vs, n, i);
    AtAll(data);
    var st := ButBack(l, vs, ds, data, |data|, n, i);
    if OthersTerminated(l, vs, n, i) {
      ProgressEnds(l, vs, ds, st);
      EndOfLoop(l, st, data);
      RankIs(l, i);
      CompleteBut(l, vs, ds, st, i);
    }
  }

  lemma AtAll(data: Bytes)
    ensures At(data, 0, |data|, data)
  {
    assert data[0..0 + |data|] == data;
  }

  lemma EndOfLoop(l: LType, st: State, data: Bytes)
    requires l.Submessage? && TypeOk(l) && StateOk(l, st)
    ensures LoopAt(l, st, data, |data|, |data|) == Some(st)
  {
  }

  lemma ProgressEnds(l: LType, vs: seq<Slot>, ds: seq<Slot>, st: State)
    requires l.Submessage? && SlotsOk(l, vs) && SlotsOk(l, ds) && |vs| == |l.members|
             && Progress(l, vs, ds, st, |l.members|)
    ensures StateOk(l, st)
  {
    hide SlotOk;
    hide SameSlot;
  }

  lemma CompleteBut(l: LType, vs: seq<Slot>, ds: seq<Slot>, st: State, i: nat)
    requires l.Submessage? && SlotsOk(l, vs) && SlotsOk(l, ds) && |vs| == |l.members| && StateOk(l, st)
    requires Progress(l, vs, ds, st, |l.members|) && i < |l.members| && IsRequired(l.members[i])
             && SeenBut(l.members, st.seen, |l.members|, i)
    ensures Complete(l, st) <==> RequiredBefore(l.members, i) >= 64
  {
    hide SlotsOk;
    hide SlotsDone;
    hide StateOk;
    hide RequiredBefore;
    RankRises(l.members, i, |l.members|);
    assert RequiredBefore(l.members, i) !in st.seen;
  }

  // ---- fixed count arrays ----

  function PackedCount(f: Field, data: Bytes, p: nat, end: nat): nat
    requires Packable(f.ltype) && p <= end <= |data|
    decreases end - p
  {
    if p == end then 0 else match NumAt(f.ltype, f.dataSize, data, p, end)
      case None => 0
      case Some(n) => 1 + PackedCount(f, data, n.1, end)
  }

  /** The items behind a tag: those of a packed array, or one. */
  function ItemsBehind(f: Field, t: TagRead, data: Bytes, limit: nat): nat
    requires t.Tag? && t.next <= limit <= |data|
  {
    if t.wire == 2 && Packable(f.ltype) then
      match SubstreamAt(data, t.next, limit) case None => 0 case Some(sub) => PackedCount(f, data, sub.0, sub.1)
    else 1
  }

  /** All items of member i that the loop comes to from p on. */
  ghost function ItemsFrom(l: LType, st: State, data: Bytes, p: nat, limit: nat, i: nat): nat
    requires l.Submessage? && TypeOk(l) && StateOk(l, st) && p <= limit <= |data| && IsFixed(l, i)
    decreases limit - p
  {
    var t := TagAt(data, p, limit);
    if p == limit || !t.Tag? then 0 else match FieldEnd(l, st, t, data, limit)
      case None => 0
      case Some(r) =>
        (if t.tag == l.members[i].f.tag then ItemsBehind(l.members[i].f, t, data, limit) else 0)
        + ItemsFrom(l, r.0, data, r.1, limit, i)
  }

  /** n is nothing but rows of this size. */
  predicate FullRows(n: nat, size: nat) { n == 0 || (0 < size <= n && FullRows(n - size, size)) }

  /** The items of member i in the row it is in. */
  function InRow(st: State, i: nat): nat { if st.fixedField == Some(i) then st.fixedSize else 0 }

  lemma {:induction false} PackedAdds(f: Field, items: seq<Val>, count: nat, data: Bytes, p: nat, end: nat)
    requires Packable(f.ltype) && ItemsOk(f, items) && p <= end <= |data|
    requires PackedAt(f, items, count, data, p, end).Some?
    ensures PackedAt(f, items, count, data, p, end).value.1 == count + PackedCount(f, data, p, end)
    decreases end - p
  {
    hide NumAt;
    if p < end {
      var n := NumAt(f.ltype, f.dataSize, data, p, end).value;
      PackedAdds(f, items[count := Num(n.0)], count + 1, data, n.1, end);
    }
  }

  lemma ItemsAdd(f: Field, items: seq<Val>, count: nat, t: TagRead, data: Bytes, limit: nat)
    requires FieldOk(f) && ItemsOk(f, items) && t.Tag? && t.next <= limit <= |data|
    requires ItemsAt(f, items, count, t.wire, data, t.next, limit).Some?
    ensures ItemsAt(f, items, count, t.wire, data, t.next, limit).value.1 == count + ItemsBehind(f, t, data, limit)
  {
    hide ValAt;
    hide PackedAt;
    hide PackedCount;
    hide SubstreamAt;
    hide FieldOk;
    if t.wire == 2 && Packable(f.ltype) {
      var sub := SubstreamAt(data, t.next, limit).value;
      PackedAdds(f, items, count, data, sub.0, sub.1);
    }
  }

  /** A row that is left is full, and a field adds what is behind its tag. */
  lemma FixedGoesOn(l: LType, st: State, t: TagRead, data: Bytes, limit: nat, i: nat)
    requires l.Submessage? && TypeOk(l) && StateOk(l, st) && t.Tag? && t.next <= limit <= |data| && IsFixed(l, i)
    requires FieldEnd(l, st, t, data, limit).Some?
    ensures var st' := FieldEnd(l, st, t, data, limit).value.0;
            if t.tag == l.members[i].f.tag then
              InRow(st', i) == InRow(st, i) + ItemsBehind(l.members[i].f, t, data, limit)
            else
              InRow(st', i) == InRow(st, i) || (InRow(st, i) == l.members[i].arraySize && InRow(st', i) == 0)
  {
    hide ValAt;
    hide ItemsAt;
    hide SkipField;
    hide Defaults;
    hide ZeroVal;
    hide RequiredBefore;
    hide ItemsBehind;
    assert MemberOk(l, i) && SlotOk(l, i, st.slots[i]);
    var f := l.members[i].f;
    if t.tag == f.tag {
      assert HasTag(l.members[i], 0, f.tag);
      FindBack(l, i, 0, f.tag);
      ItemsAdd(f, st.slots[i].items, InRow(st, i), t, data, limit);
    }
  }

  lemma {:induction false} RowsAreFull(l: LType, st: State, data: Bytes, p: nat, limit: nat, i: nat)
    requires l.Submessage? && TypeOk(l) && StateOk(l, st) && p <= limit <= |data| && IsFixed(l, i)
    requires l.members[i].arraySize > 0 && LoopAt(l, st, data, p, limit).Some?
    requires var end := LoopAt(l, st, data, p, limit).value;
             end.fixedField == Some(i) ==> end.fixedSize == l.members[i].arraySize
    ensures FullRows(InRow(st, i) + ItemsFrom(l, st, data, p, limit, i), l.members[i].arraySize)
    decreases limit - p
  {
    hide TagAt;
    hide FieldEnd;
    hide TypeOk;
    hide StateOk;
    hide ItemsBehind;
    LoopGoesOn(l, st, data, p, limit);
    var t := TagAt(data, p, limit);
    if p < limit && t.Tag? {
      var r := FieldEnd(l, st, t, data, limit).value;
      FixedGoesOn(l, st, t, data, limit, i);
      RowsAreFull(l, r.0, data, r.1, limit, i);
    }
  }

  /** In whatever pb_decode accepts, the items of a fixed count array come in full rows. */
  lemma FixedCountsKept(l: LType, slots: seq<Slot>, data: Bytes, p: nat, limit: nat, i: nat)
    requires l.Submessage? && TypeOk(l) && SlotsOk(l, slots) && p <= limit <= |data| && IsFixed(l, i)
    requires l.members[i].arraySize > 0 && MessageAt(l, slots, data, p, limit).Some?
    ensures FullRows(ItemsFrom(l, State(slots, None, 0, {}), data, p, limit, i), l.members[i].arraySize)
  {
    hide LoopAt;
    hide TypeOk;
    hide SlotsOk;
    hide ItemsFrom;
    RowsAreFull(l, State(slots, None, 0, {}), data, p, limit, i);
  }
}
