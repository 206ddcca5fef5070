/** Which messages pb_encode writes at all, and which alike (pb_encode.c): two messages have
    the same bytes exactly if they agree in all that is there. */
module NanopbEquality {
  import opened InternalKeys
  import opened Coding
  import opened NanopbMessages
  import opened NanopbDecode
  import opened NanopbRoundTrip

  /** Every oneof names one of its fields, or none with 0. */
  ghost predicate Settled(l: LType, size: nat, v: Val)
    requires ValOk(l, size, v)
    decreases l, 2
  {
    l.Submessage? ==> SlotsSettled(l, v.slots)
  }

  ghost predicate SlotsSettled(l: LType, slots: seq<Slot>)
    requires l.Submessage? && SlotsOk(l, slots)
    decreases l, 1
  {
    forall i :: 0 <= i < |slots| ==> SlotSettled(l, i, slots[i])
  }

  ghost predicate SlotSettled(l: LType, i: nat, s: Slot)
    requires l.Submessage? && i < |l.members| && SlotOk(l, i, s)
    decreases l, 0
  {
    match l.members[i]
    case Plain(f, rule, _) =>
      (match rule
       case Required => Settled(f.ltype, f.dataSize, s.v)
       case Singular => Settled(f.ltype, f.dataSize, s.v)
       case Optional => Settled(f.ltype, f.dataSize, s.o)
       case Repeated => forall k :: 0 <= k < |s.items| ==> Settled(f.ltype, f.dataSize, s.items[k])
       case FixedCount => forall k :: 0 <= k < |s.items| ==> Settled(f.ltype, f.dataSize, s.items[k]))
    case Union(fields) =>
      && (s.which == 0 || exists j :: 0 <= j < |fields| && fields[j].tag == s.which)
      && forall j :: 0 <= j < |fields| && fields[j].tag == s.which ==>
           fields[j].tag != 0 && Settled(fields[j].ltype, fields[j].dataSize, s.u)
  }

  // ---- sameness ----

  lemma {:induction false} ValSame(l: LType, size: nat, v: Val)
    requires ValOk(l, size, v)
    ensures SameVal(l, size, v, v)
    decreases l, 2
  {
    if l.Submessage? {
      forall i | 0 <= i < |v.slots| ensures SameSlot(l, i, v.slots[i], v.slots[i]) { SlotSame(l, i, v.slots[i]); }
    }
  }

  lemma {:induction false} SlotSame(l: LType, i: nat, s: Slot)
    requires l.Submessage? && i < |l.members| && SlotOk(l, i, s)
    ensures SameSlot(l, i, s, s)
    decreases l, 0
  {
    match l.members[i]
    case Plain(f, rule, _) =>
      if rule.Required? || rule.Singular? { ValSame(f.ltype, f.dataSize, s.v); }
      else if rule.Optional? { ValSame(f.ltype, f.dataSize, s.o); }
      else {
        forall k | 0 <= k < |s.items| ensures SameVal(f.ltype, f.dataSize, s.items[k], s.items[k]) {
          ValSame(f.ltype, f.dataSize, s.items[k]);
        }
      }
    case Union(fields) =>
      forall j | 0 <= j < |fields| && fields[j].tag == s.which
        ensures SameVal(fields[j].ltype, fields[j].dataSize, s.u, s.u)
      {
        ValSame(fields[j].ltype, fields[j].dataSize, s.u);
      }
  }

  /** What is the same as a third is the same as each other. */
  lemma {:induction false} SameAsThird(l: LType, size: nat, a: Val, b: Val, c: Val)
    requires ValOk(l, size, a) && ValOk(l, size, b) && ValOk(l, size, c)
    requires SameVal(l, size, a, c) && SameVal(l, size, b, c)
    ensures SameVal(l, size, a, b)
    decreases l, 2
  {
    if l.Submessage? {
      forall i | 0 <= i < |a.slots| ensures SameSlot(l, i, a.slots[i], b.slots[i]) {
        SlotSameAsThird(l, i, a.slots[i], b.slots[i], c.slots[i]);
      }
    }
  }

  lemma {:induction false} SlotSameAsThird(l: LType, i: nat, a: Slot, b: Slot, c: Slot)
    requires l.Submessage? && i < |l.members| && SlotOk(l, i, a) && SlotOk(l, i, b) && SlotOk(l, i, c)
    requires SameSlot(l, i, a, c) && SameSlot(l, i, b, c)
    ensures SameSlot(l, i, a, b)
    decreases l, 0
  {
    match l.members[i]
    case Plain(f, rule, arraySize) =>
      if rule.Required? || rule.Singular? { SameAsThird(f.ltype, f.dataSize, a.v, b.v, c.v); }
      else if rule.Optional? {
        if a.has { SameAsThird(f.ltype, f.dataSize, a.o, b.o, c.o); }
      } else {
        ItemsSameAsThird(f, a.items, b.items, c.items, if rule.Repeated? then a.count else arraySize);
      }
    case Union(fields) =>
      forall j | 0 <= j < |fields|
        ensures fields[j].tag == a.which <==> fields[j].tag == b.which
        ensures fields[j].tag == a.which ==> SameVal(fields[j].ltype, fields[j].dataSize, a.u, b.u)
      {
        if fields[j].tag == a.which { SameAsThird(fields[j].ltype, fields[j].dataSize, a.u, b.u, c.u); }
      }
  }

  lemma {:induction false} ItemsSameAsThird(f: Field, a: seq<Val>, b: seq<Val>, c: seq<Val>, n: nat)
    requires ItemsOk(f, a) && ItemsOk(f, b) && ItemsOk(f, c) && |a| == |b| == |c|
    requires SameItems(f, a, c, n) && SameItems(f, b, c, n)
    ensures SameItems(f, a, b, n)
    decreases f.ltype, 3
  {
    forall k | 0 <= k < |a| && k < n ensures SameVal(f.ltype, f.dataSize, a[k], b[k]) {
      SameAsThird(f.ltype, f.dataSize, a[k], b[k], c[k]);
    }
  }

  // ---- the same is written alike ----

  lemma NothingUpToZero(bs: Bytes)
    ensures UpToZero(bs) == [] <==> bs == [] || bs[0] == 0
  {
  }

  lemma {:induction false} DefaultSame(l: LType, size: nat, a: Val, b: Val)
    requires ValOk(l, size, a) && ValOk(l, size, b) && SameVal(l, size, a, b)
    requires Settled(l, size, a) && Settled(l, size, b)
    ensures IsDefault(l, size, a) <==> IsDefault(l, size, b)
    decreases l, 2
  {
    if l.CString? {
      NothingUpToZero(a.bs);
      NothingUpToZero(b.bs);
    } else if l.Submessage? {
      forall i | 0 <= i < |a.slots|
        ensures SlotIsDefault(l, i, a.slots[i]) <==> SlotIsDefault(l, i, b.slots[i])
      {
        SlotDefaultSame(l, i, a.slots[i], b.slots[i]);
      }
    }
  }

  lemma {:induction false} SlotDefaultSame(l: LType, i: nat, a: Slot, b: Slot)
    requires l.Submessage? && i < |l.members| && SlotOk(l, i, a) && SlotOk(l, i, b) && SameSlot(l, i, a, b)
    requires SlotSettled(l, i, a) && SlotSettled(l, i, b)
    ensures SlotIsDefault(l, i, a) <==> SlotIsDefault(l, i, b)
    decreases l, 0
  {
    match l.members[i]
    case Plain(f, rule, _) =>
      if rule.Singular? { DefaultSame(f.ltype, f.dataSize, a.v, b.v); }
    case Union(fields) =>
  }

  lemma {:induction false} BytesSame(l: LType, size: nat, a: Val, b: Val)
    requires ValOk(l, size, a) && ValOk(l, size, b) && SameVal(l, size, a, b)
    requires Settled(l, size, a) && Settled(l, size, b)
    ensures ValBytes(l, size, a) == ValBytes(l, size, b)
    decreases l, 3, 0
  {
    if l.Submessage? {
      CountIs(l, a.slots);
      CountIs(l, b.slots);
      SlotsBytesSame(l, size, a, b, |l.members|);
    }
  }

  lemma {:induction false} SlotsBytesSame(l: LType, size: nat, a: Val, b: Val, n: nat)
    requires ValOk(l, size, a) && ValOk(l, size, b) && SameVal(l, size, a, b) && l.Submessage?
    requires Settled(l, size, a) && Settled(l, size, b) && n <= |a.slots| == |b.slots|
    ensures SlotsBytes(l, a.slots, n) == SlotsBytes(l, b.slots, n)
    decreases l, 2, n
  {
    if n > 0 {
      SlotsBytesSame(l, size, a, b, n - 1);
      SlotBytesSame(l, n - 1, a.slots[n - 1], b.slots[n - 1]);
    }
  }

  lemma {:induction false} SlotBytesSame(l: LType, i: nat, a: Slot, b: Slot)
    requires l.Submessage? && i < |l.members| && SlotOk(l, i, a) && SlotOk(l, i, b) && SameSlot(l, i, a, b)
    requires SlotSettled(l, i, a) && SlotSettled(l, i, b)
    ensures SlotBytes(l, i, a) == SlotBytes(l, i, b)
    decreases l, 1, 0
  {
    hide ValBytes;
    hide IsDefault;
    match l.members[i]
    case Union(fields) => UnionBytesSame(l, i, a, b, |fields|);
    case Plain(f, rule, arraySize) =>
      if rule.Required? { BytesSame(f.ltype, f.dataSize, a.v, b.v); }
      else if rule.Singular? {
        DefaultSame(f.ltype, f.dataSize, a.v, b.v);
        BytesSame(f.ltype, f.dataSize, a.v, b.v);
      } else if rule.Optional? {
        if a.has { BytesSame(f.ltype, f.dataSize, a.o, b.o); }
      } else {
        ArrayBytesSame(f, arraySize, a.items, b.items, if rule.Repeated? then a.count else arraySize);
      }
  }

  ghost predicate AllSettled(f: Field, items: seq<Val>)
    requires ItemsOk(f, items)
  {
    forall k :: 0 <= k < |items| ==> Settled(f.ltype, f.dataSize, items[k])
  }

  lemma {:induction false} ArrayBytesSame(f: Field, arraySize: nat, a: seq<Val>, b: seq<Val>, count: nat)
    requires ItemsOk(f, a) && ItemsOk(f, b) && |a| == |b| == arraySize && SameItems(f, a, b, count)
    requires AllSettled(f, a) && AllSettled(f, b)
    ensures ArrayBytes(f, arraySize, a, count) == ArrayBytes(f, arraySize, b, count)
    decreases f.ltype, 6, 0
  {
    hide ItemsBytes;
    if count <= arraySize {
      ItemsBytesSame(f, a, b, count, false);
      ItemsBytesSame(f, a, b, count, true);
    }
  }

  lemma {:induction false} ItemsBytesSame(f: Field, a: seq<Val>, b: seq<Val>, n: nat, tagged: bool)
    requires ItemsOk(f, a) && ItemsOk(f, b) && n <= |a| == |b| && AllSettled(f, a) && AllSettled(f, b)
    requires forall k :: 0 <= k < n ==> SameVal(f.ltype, f.dataSize, a[k], b[k])
    ensures ItemsBytes(f, a, n, tagged) == ItemsBytes(f, b, n, tagged)
    decreases f.ltype, 5, n
  {
    hide ValBytes;
    if n > 0 {
      ItemsBytesSame(f, a, b, n - 1, tagged);
      BytesSame(f.ltype, f.dataSize, a[n - 1], b[n - 1]);
    }
  }

  lemma {:induction false} UnionBytesSame(l: LType, i: nat, a: Slot, b: Slot, n: nat)
    requires l.Submessage? && i < |l.members| && SlotOk(l, i, a) && SlotOk(l, i, b) && SameSlot(l, i, a, b)
    requires SlotSettled(l, i, a) && SlotSettled(l, i, b) && l.members[i].Union? && n <= |l.members[i].fields|
    ensures UnionBytes(l, i, a, n) == UnionBytes(l, i, b, n)
    decreases l, 0, n
  {
    hide ValBytes;
    if n > 0 {
      UnionBytesSame(l, i, a, b, n - 1);
      var f := l.members[i].fields[n - 1];
      if a.which == f.tag { BytesSame(f.ltype, f.dataSize, a.u, b.u); }
    }
  }

  // ---- what can be written at all ----

  /** Every byte array that is there fits its room, and every count its array. */
  ghost predicate Writable(l: LType, size: nat, v: Val)
    requires ValOk(l, size, v)
    decreases l, 2
  {
    && (l.BytesArray? ==> BYTES_OFFSET + |v.bs| <= size)
    && (l.Submessage? ==> SlotsWritable(l, v.slots, |v.slots|))
  }

  ghost predicate SlotsWritable(l: LType, slots: seq<Slot>, n: nat)
    requires l.Submessage? && SlotsOk(l, slots) && n <= |slots|
    decreases l, 1
  {
    forall i :: 0 <= i < n ==> SlotWritable(l, i, slots[i])
  }

  ghost predicate SlotWritable(l: LType, i: nat, s: Slot)
    requires l.Submessage? && i < |l.members| && SlotOk(l, i, s)
    decreases l, 0
  {
    match l.members[i]
    case Plain(f, rule, arraySize) =>
      (match rule
       case Required => Writable(f.ltype, f.dataSize, s.v)
       case Singular => IsDefault(f.ltype, f.dataSize, s.v) || Writable(f.ltype, f.dataSize, s.v)
       case Optional => s.has ==> Writable(f.ltype, f.dataSize, s.o)
       case Repeated => s.count <= |s.items| && ItemsWritable(f, s.items, s.count)
       case FixedCount => ItemsWritable(f, s.items, |s.items|))
    case Union(fields) => forall j :: 0 <= j < |fields| && fields[j].tag == s.which ==>
          Writable(fields[j].ltype, fields[j].dataSize, s.u)
  }

  ghost predicate ItemsWritable(f: Field, items: seq<Val>, n: nat)
    requires ItemsOk(f, items) && n <= |items|
    decreases f.ltype, 3
  {
    forall k :: 0 <= k < n ==> Writable(f.ltype, f.dataSize, items[k])
  }

  /** An item is written exactly if it can be. */
  lemma {:induction false} ValWrittenIff(l: LType, size: nat, v: Val)
    requires ValOk(l, size, v)
    ensures ValBytes(l, size, v).Some? <==> Writable(l, size, v)
    decreases l, 2, 0
  {
    hide NumBytes;
    hide SlotsBytes;
    if l.Submessage? {
      CountIs(l, v.slots);
      SlotsWrittenIff(l, v.slots, |l.members|);
    }
  }

  lemma {:induction false} SlotsWrittenIff(l: LType, slots: seq<Slot>, n: nat)
    requires l.Submessage? && SlotsOk(l, slots) && n <= |slots|
    ensures SlotsBytes(l, slots, n).Some? <==> SlotsWritable(l, slots, n)
    decreases l, 1, n
  {
    hide SlotBytes;
    hide SlotWritable;
    if n > 0 {
      SlotsWrittenIff(l, slots, n - 1);
      SlotWrittenIff(l, n - 1, slots[n - 1]);
    }
  }

  lemma {:induction false} SlotWrittenIff(l: LType, i: nat, s: Slot)
    requires l.Submessage? && i < |l.members| && SlotOk(l, i, s)
    ensures SlotBytes(l, i, s).Some? <==> SlotWritable(l, i, s)
    decreases l, 0, 1
  {
    hide ValBytes;
    hide IsDefault;
    hide ItemsBytes;
    match l.members[i]
    case Union(fields) => UnionWrittenIff(l, i, s, |fields|);
    case Plain(f, rule, arraySize) =>
      if rule.Required? || rule.Singular? { ValWrittenIff(f.ltype, f.dataSize, s.v); }
      else if rule.Optional? { ValWrittenIff(f.ltype, f.dataSize, s.o); }
      else {
        var n := if rule.Repeated? then s.count else arraySize;
        if n <= |s.items| {
          ItemsWrittenIff(f, s.items, n, false);
          ItemsWrittenIff(f, s.items, n, true);
        }
      }
  }

  lemma {:induction false} ItemsWrittenIff(f: Field, items: seq<Val>, n: nat, tagged: bool)
    requires ItemsOk(f, items) && n <= |items|
    ensures ItemsBytes(f, items, n, tagged).Some? <==> ItemsWritable(f, items, n)
    decreases f.ltype, 5, n
  {
    hide ValBytes;
    hide Writable;
    if n > 0 {
      ItemsWrittenIff(f, items, n - 1, tagged);
      ValWrittenIff(f.ltype, f.dataSize, items[n - 1]);
    }
  }

  lemma {:induction false} UnionWrittenIff(l: LType, i: nat, s: Slot, n: nat)
    requires l.Submessage? && i < |l.members| && SlotOk(l, i, s) && l.members[i].Union?
             && n <= |l.members[i].fields|
    ensures UnionBytes(l, i, s, n).Some?
            <==> forall j :: 0 <= j < n && l.members[i].fields[j].tag == s.which ==>
                   Writable(l.members[i].fields[j].ltype, l.members[i].fields[j].dataSize, s.u)
    decreases l, 0, 0, n
  {
    hide ValBytes;
    hide Writable;
    if n > 0 {
      UnionWrittenIff(l, i, s, n - 1);
      var f := l.members[i].fields[n - 1];
      if s.which == f.tag { ValWrittenIff(f.ltype, f.dataSize, s.u); }
    }
  }

  /** pb_encode fails exactly on a byte array too long for its room or a count too great. */
  lemma MessageWrittenIff(l: LType, v: Val)
    requires l.Submessage? && ValOk(l, 0, v)
    ensures MessageBytes(l, v).Some? <==> Writable(l, 0, v)
  {
    CountIs(l, v.slots);
    SlotsWrittenIff(l, v.slots, |l.members|);
  }

  /** Two messages whose strings are terminated have the same bytes exactly if they agree in
      which optional fields and oneof members are there, in the counts of arrays, and in the
      values that are there, strings up to their terminators. */
  lemma SameBytesIff(l: LType, a: Val, b: Val)
    requires l.Submessage? && TypeOk(l) && ValOk(l, 0, a) && ValOk(l, 0, b)
    requires Settled(l, 0, a) && Settled(l, 0, b) && Terminated(l, 0, a) && Terminated(l, 0, b)
    requires MessageBytes(l, a).Some? && MessageBytes(l, b).Some? && |MessageBytes(l, a).value| < P32
    ensures MessageBytes(l, a) == MessageBytes(l, b) <==> SameVal(l, 0, a, b)
  {
    hide TypeOk;
    hide ValOk;
    hide Settled;
    hide Terminated;
    hide SameVal;
    hide SlotsBytes;
    hide Decoded;
    if SameVal(l, 0, a, b) { MessageSame(l, a, b); }
    if MessageBytes(l, a) == MessageBytes(l, b) {
      var r := RoundTripIff(l, a, a);
      var s := RoundTripIff(l, b, a);
      SameAsThird(l, 0, a, b, r);
    }
  }

  lemma MessageSame(l: LType, a: Val, b: Val)
    requires l.Submessage? && ValOk(l, 0, a) && ValOk(l, 0, b)
    requires Settled(l, 0, a) && Settled(l, 0, b) && SameVal(l, 0, a, b)
    ensures MessageBytes(l, a) == MessageBytes(l, b)
  {
    CountIs(l, a.slots);
    CountIs(l, b.slots);
    SlotsBytesSame(l, 0, a, b, |l.members|);
  }
}
