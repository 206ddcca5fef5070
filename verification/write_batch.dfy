/** Write batches as bytes (db/write_batch.cc): what Put, Delete and Append store is what
    Iterate hands to its handler. */
module WriteBatches {
  import opened InternalKeys
  import opened Coding
  import E = VersionEdits

  const HEADER := 12  // kHeader: sequence and count

  datatype Operation = PutOp(key: Bytes, value: Bytes) | DeleteOp(key: Bytes)

  function OpBytes(op: Operation): (bs: Bytes)
    ensures bs != []
  {
    match op
    case PutOp(key, value) => [1] + E.Prefixed(key) + E.Prefixed(value)
    case DeleteOp(key) => [0] + E.Prefixed(key)
  }

  function OpsBytes(ops: seq<Operation>): Bytes {
    if ops == [] then [] else OpsBytes(ops[..|ops| - 1]) + OpBytes(ops[|ops| - 1])
  }

  function BatchBytes(sequence: Word64, count: Word, ops: seq<Operation>): Bytes {
    Fixed64(sequence) + Fixed32(count) + OpsBytes(ops)
  }

  // ---- reading ----

  datatype Record = Got(op: Operation, next: nat) | Bad(msg: string)

  /** The record at p. */
  function OpAt(data: Bytes, p: nat): (r: Record)
    requires p < |data|
    ensures r.Got? ==> p < r.next <= |data|
  {
    if data[p] == 1 then
      match E.GetSlice(data, p + 1)
      case None => Bad("bad WriteBatch Put")
      case Some(key) =>
        match E.GetSlice(data, key.1)
        case None => Bad("bad WriteBatch Put")
        case Some(value) => Got(PutOp(key.0, value.0), value.1)
    else if data[p] == 0 then
      match E.GetSlice(data, p + 1)
      case None => Bad("bad WriteBatch Delete")
      case Some(key) => Got(DeleteOp(key.0), key.1)
    else Bad("unknown WriteBatch tag")
  }

  /** The operations from p on, up to the first bad record, and what is wrong with it. */
  function OpsAt(data: Bytes, p: nat): (seq<Operation>, Option<string>)
    requires p <= |data|
    decreases |data| - p
  {
    if p == |data| then ([], None)
    else match OpAt(data, p)
      case Bad(msg) => ([], Some(msg))
      case Got(op, next) => var rest := OpsAt(data, next); ([op] + rest.0, rest.1)
  }

  /** The count is an int for the code. */
  function CountOf(rep: Bytes): int
    requires |rep| >= HEADER
  { var n := DecodeFixed32(rep[8..]); if n < 0x8000_0000 then n else n - 0x1_0000_0000 }

  /** Iterate: what the handler is given, and what is wrong. */
  function Iterated(rep: Bytes): (seq<Operation>, Option<string>) {
    if |rep| < HEADER then ([], Some("malformed WriteBatch (too small)"))
    else
      var r := OpsAt(rep, HEADER);
      if r.1 == None && |r.0| != CountOf(rep) then (r.0, Some("WriteBatch has wrong count")) else r
  }

  // ---- what was written is what is read ----

  predicate Short(op: Operation) { E.ShortSlice(op.key) && (op.PutOp? ==> E.ShortSlice(op.value)) }

  lemma PutBack(data: Bytes, p: nat, key: Bytes, value: Bytes)
    requires E.At(data, p, OpBytes(PutOp(key, value))) && E.ShortSlice(key) && E.ShortSlice(value)
    ensures p < |data| && OpAt(data, p) == Got(PutOp(key, value), p + |OpBytes(PutOp(key, value))|)
  {
    hide E.GetSlice;
    hide E.Prefixed;
    hide E.ShortSlice;
    var tag: Bytes, a, b := [1], E.Prefixed(key), E.Prefixed(value);
    assert OpBytes(PutOp(key, value)) == tag + (a + b);
    E.AtParts(data, p, tag, a + b);
    E.AtParts(data, p + 1, a, b);
    hide OpBytes;
    assert data[p] == data[p..p + 1][0];
    E.SliceBack(data, p + 1, key);
    E.SliceBack(data, p + 1 + |a|, value);
  }

  lemma DeleteBack(data: Bytes, p: nat, key: Bytes)
    requires E.At(data, p, OpBytes(DeleteOp(key))) && E.ShortSlice(key)
    ensures p < |data| && OpAt(data, p) == Got(DeleteOp(key), p + |OpBytes(DeleteOp(key))|)
  {
    hide E.GetSlice;
    hide E.Prefixed;
    hide E.ShortSlice;
    var tag: Bytes := [0];
    E.AtParts(data, p, tag, E.Prefixed(key));
    assert data[p] == data[p..p + 1][0];
    E.SliceBack(data, p + 1, key);
  }

  lemma OpBack(data: Bytes, p: nat, op: Operation)
    requires E.At(data, p, OpBytes(op)) && Short(op)
    ensures p < |data| && OpAt(data, p) == Got(op, p + |OpBytes(op)|)
  {
    hide OpAt;
    hide OpBytes;
    hide E.At;
    match op
    case PutOp(key, value) => PutBack(data, p, key, value);
    case DeleteOp(key) => DeleteBack(data, p, key);
  }

  lemma OneOp(op: Operation)
    ensures OpsBytes([op]) == OpBytes(op)
  {
    hide OpBytes;
    assert [op][..0] == [];
  }

  lemma {:induction false} TwoLists(a: seq<Operation>, b: seq<Operation>)
    ensures OpsBytes(a + b) == OpsBytes(a) + OpsBytes(b)
    decreases |b|
  {
    hide OpBytes;
    if b == [] {
      assert a + b == a;
    } else {
      TwoLists(a, b[..|b| - 1]);
      assert (a + b)[..|a + b| - 1] == a + b[..|b| - 1];
    }
  }

  lemma FirstOp(ops: seq<Operation>)
    requires ops != []
    ensures OpsBytes(ops) == OpBytes(ops[0]) + OpsBytes(ops[1..])
  {
    hide OpBytes;
    hide OpsBytes;
    OneOp(ops[0]);
    TwoLists([ops[0]], ops[1..]);
    assert [ops[0]] + ops[1..] == ops;
  }

  lemma {:induction false} OpsBack(data: Bytes, p: nat, ops: seq<Operation>)
    requires E.At(data, p, OpsBytes(ops)) && p + |OpsBytes(ops)| == |data| && forall op :: op in ops ==> Short(op)
    ensures OpsAt(data, p) == (ops, None)
    decreases |ops|
  {
    hide OpBytes;
    hide OpAt;
    if ops != [] {
      FirstOp(ops);
      E.AtParts(data, p, OpBytes(ops[0]), OpsBytes(ops[1..]));
      OpBack(data, p, ops[0]);
      OpsBack(data, p + |OpBytes(ops[0])|, ops[1..]);
      assert [ops[0]] + ops[1..] == ops;
    }
  }

  /** Whatever is read is short. */
  lemma {:induction false} ReadIsShort(data: Bytes, p: nat)
    requires p <= |data|
    ensures forall op :: op in OpsAt(data, p).0 ==> Short(op)
    decreases |data| - p
  {
    if p < |data| && OpAt(data, p).Got? { ReadIsShort(data, OpAt(data, p).next); }
  }

  lemma HeaderBack(sequence: Word64, count: Word, ops: seq<Operation>)
    ensures var rep := BatchBytes(sequence, count, ops);
            && |rep| >= HEADER && DecodeFixed64(rep) == sequence && DecodeFixed32(rep[8..]) == count
            && rep[HEADER..] == OpsBytes(ops)
  {
    var rep := BatchBytes(sequence, count, ops);
    Fixed64RoundTrip(sequence);
    Fixed32RoundTrip(count);
    assert rep[..8] == Fixed64(sequence) && rep[8..12] == Fixed32(count);
    assert rep[4..][..4] == Fixed64(sequence)[4..];
  }

  /** Iterating over a batch of these operations gives them back exactly if every key and
      value is below 4 GB and there are fewer than 2^31 of them. */
  lemma IteratesBackIff(sequence: Word64, ops: seq<Operation>)
    ensures Iterated(BatchBytes(sequence, Low32(|ops|), ops)) == (ops, None)
            <==> |ops| < 0x8000_0000 && forall op :: op in ops ==> Short(op)
  {
    hide OpAt;
    hide OpsAt;
    hide OpsBytes;
    hide Short;
    hide DecodeFixed64;
    hide Fixed64;
    var rep := BatchBytes(sequence, Low32(|ops|), ops);
    HeaderBack(sequence, Low32(|ops|), ops);
    hide BatchBytes;
    ReadIsShort(rep, HEADER);
    if forall op :: op in ops ==> Short(op) { OpsBack(rep, HEADER, ops); }
  }

  // ---- adding operations ----

  /** The count raised by n, and more records behind the others. */
  function Extended(rep: Bytes, n: int, more: Bytes): Bytes
    requires |rep| >= HEADER
  { rep[..8] + Fixed32((CountOf(rep) + n) % 0x1_0000_0000) + rep[HEADER..] + more }

  lemma CountRaised(a: nat, b: nat, x: int, y: int)
    requires (x == Low32(a) || x == Low32(a) - 0x1_0000_0000) && (y == Low32(b) || y == Low32(b) - 0x1_0000_0000)
    ensures (x + y) % 0x1_0000_0000 == Low32(a + b)
  {
  }

  /** These operations behind those. */
  lemma ExtendedHolds(sequence: Word64, ops: seq<Operation>, more: seq<Operation>, n: int)
    requires n == Low32(|more|) || n == Low32(|more|) - 0x1_0000_0000
    ensures var rep := BatchBytes(sequence, Low32(|ops|), ops);
            |rep| >= HEADER && Extended(rep, n, OpsBytes(more)) == BatchBytes(sequence, Low32(|ops + more|), ops + more)
  {
    hide OpsBytes;
    hide Low32;
    hide Fixed64;
    hide Fixed32;
    hide DecodeFixed32;
    hide DecodeFixed64;
    var count: Word, rep := Low32(|ops|), BatchBytes(sequence, Low32(|ops|), ops);
    HeaderBack(sequence, count, ops);
    TwoLists(ops, more);
    CountRaised(|ops|, |more|, CountOf(rep), n);
    assert rep[..8] == Fixed64(sequence);
    assert |ops + more| == |ops| + |more|;
  }

  // ---- the object ----

  class WriteBatch {
    var rep: Bytes

    /** The batch holds these operations. */
    ghost predicate Holds(sequence: Word64, ops: seq<Operation>)
      reads this
    { rep == BatchBytes(sequence, Low32(|ops|), ops) }

    constructor ()
      ensures Holds(0, [])
    {
      rep := Zeros(HEADER);
    }

    method Clear()
      modifies this
      ensures Holds(0, [])
    {
      rep := Zeros(HEADER);
    }

    function Count(): int
      requires |rep| >= HEADER
      reads this
    { CountOf(rep) }

    method SetCount(n: int)
      requires |rep| >= HEADER
      modifies this
      ensures rep == old(rep[..8]) + Fixed32(n % 0x1_0000_0000) + old(rep[HEADER..])
    {
      rep := rep[..8] + Fixed32(n % 0x1_0000_0000) + rep[HEADER..];
    }

    method SetSequence(sequence: Word64)
      requires |rep| >= HEADER
      modifies this
      ensures rep == Fixed64(sequence) + old(rep[8..])
      ensures forall s, ops :: old(Holds(s, ops)) ==> Holds(sequence, ops)
    {
      rep := Fixed64(sequence) + rep[8..];
    }

    method Put(key: Bytes, value: Bytes)
      requires |rep| >= HEADER
      modifies this
      ensures rep == Extended(old(rep), 1, OpBytes(PutOp(key, value)))
      ensures forall s, ops :: old(Holds(s, ops)) ==> Holds(s, ops + [PutOp(key, value)])
    {
      hide OpsBytes;
      hide CountOf;
      hide Fixed32;
      hide E.Prefixed;
      hide BatchBytes;
      SetCount(Count() + 1);
      rep := rep + [1];
      var x := E.PutSlice(key);
      var y := E.PutSlice(value);
      rep := rep + x + y;
      assert rep == Extended(old(rep), 1, OpBytes(PutOp(key, value)));
      forall s, ops | old(Holds(s, ops)) ensures Holds(s, ops + [PutOp(key, value)]) {
        OneOp(PutOp(key, value));
        ExtendedHolds(s, ops, [PutOp(key, value)], 1);
      }
    }

    method Delete(key: Bytes)
      requires |rep| >= HEADER
      modifies this
      ensures rep == Extended(old(rep), 1, OpBytes(DeleteOp(key)))
      ensures forall s, ops :: old(Holds(s, ops)) ==> Holds(s, ops + [DeleteOp(key)])
    {
      hide OpsBytes;
      hide CountOf;
      hide Fixed32;
      hide E.Prefixed;
      hide BatchBytes;
      SetCount(Count() + 1);
      rep := rep + [0];
      var x := E.PutSlice(key);
      rep := rep + x;
      assert rep == Extended(old(rep), 1, OpBytes(DeleteOp(key)));
      forall s, ops | old(Holds(s, ops)) ensures Holds(s, ops + [DeleteOp(key)]) {
        OneOp(DeleteOp(key));
        ExtendedHolds(s, ops, [DeleteOp(key)], 1);
      }
    }

    /** Append: the records of the other batch behind these. */
    method Append(source: WriteBatch)
      requires |rep| >= HEADER && |source.rep| >= HEADER
      modifies this
      ensures rep == Extended(old(rep), old(source.Count()), old(source.rep[HEADER..]))
      ensures forall s, ops, t, more :: old(Holds(s, ops)) && old(source.Holds(t, more)) ==> Holds(s, ops + more)
    {
      hide OpsBytes;
      hide CountOf;
      hide Fixed32;
      hide BatchBytes;
      ghost var n, data := source.Count(), source.rep[HEADER..];
      var records := source.rep[HEADER..];
      SetCount(Count() + source.Count());
      rep := rep + records;
      forall s, ops, t, more | old(Holds(s, ops)) && old(source.Holds(t, more)) ensures Holds(s, ops + more) {
        CountIs(t, more);
        ExtendedHolds(s, ops, more, n);
      }
    }

    static lemma CountIs(sequence: Word64, ops: seq<Operation>)
      ensures var rep := BatchBytes(sequence, Low32(|ops|), ops);
              && |rep| >= HEADER && rep[HEADER..] == OpsBytes(ops)
              && (CountOf(rep) == Low32(|ops|) || CountOf(rep) == Low32(|ops|) - 0x1_0000_0000)
    {
      hide OpsBytes;
      HeaderBack(sequence, Low32(|ops|), ops);
    }

    /** Iterate with a handler that collects what it is given. */
    method Iterate() returns (ops: seq<Operation>, msg: Option<string>)
      ensures (ops, msg) == Iterated(rep)
    {
      ops := [];
      if |rep| < HEADER { return ops, Some("malformed WriteBatch (too small)"); }
      var p, found := HEADER, 0;
      assert [] + OpsAt(rep, HEADER).0 == OpsAt(rep, HEADER).0;
      hide OpAt;
      while p < |rep|
        invariant HEADER <= p <= |rep| && found == |ops|
        invariant OpsAt(rep, HEADER) == (ops + OpsAt(rep, p).0, OpsAt(rep, p).1)
        decreases |rep| - p
      {
        found := found + 1;
        var one := TakeOp(p);
        assert ops + [] == ops;
        if one.Bad? { return ops, Some(one.msg); }
        assert ops + [one.op] + OpsAt(rep, one.next).0 == ops + ([one.op] + OpsAt(rep, one.next).0);
        ops := ops + [one.op];
        p := one.next;
      }
      assert ops + [] == ops;
      msg := if found != Count() then Some("WriteBatch has wrong count") else None;
    }

    /** One record, by its tag. */
    method TakeOp(p: nat) returns (one: Record)
      requires p < |rep|
      ensures one == OpAt(rep, p)
    {
      hide E.GetSlice;
      var tag := rep[p];
      if tag == 1 {
        var key := E.GetSlice(rep, p + 1);
        if key == None { return Bad("bad WriteBatch Put"); }
        var value := E.GetSlice(rep, key.value.1);
        return if value == None then Bad("bad WriteBatch Put")
               else Got(PutOp(key.value.0, value.value.0), value.value.1);
      } else if tag == 0 {
        var key := E.GetSlice(rep, p + 1);
        return if key == None then Bad("bad WriteBatch Delete") else Got(DeleteOp(key.value.0), key.value.1);
      }
      return Bad("unknown WriteBatch tag");
    }
  }

  /** Appending one batch to another and iterating: the operations of both, in order. */
  method AppendAndIterate(a: WriteBatch, b: WriteBatch,
        ghost s: Word64, ghost ops: seq<Operation>, ghost t: Word64, ghost more: seq<Operation>)
    returns (all: seq<Operation>, msg: Option<string>)
    requires a.Holds(s, ops) && b.Holds(t, more)
    modifies a
    ensures (all, msg) == (ops + more, None)
            <==> |ops + more| < 0x8000_0000 && forall op :: op in ops + more ==> Short(op)
  {
    hide Short;
    hide Iterated;
    hide Extended;
    hide OpsBytes;
    hide Fixed64;
    hide Fixed32;
    WriteBatch.CountIs(s, ops);
    WriteBatch.CountIs(t, more);
    hide BatchBytes;
    a.Append(b);
    IteratesBackIff(s, ops + more);
    all, msg := a.Iterate();
  }
}
