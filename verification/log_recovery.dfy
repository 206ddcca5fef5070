/** The log as a whole: what a reader recovers from any byte prefix of what any
    sequence of writers appended. */
module LogRecovery {
  import opened Coding
  import opened LogFormat

  /** Length of the log after the first i records. */
  ghost function EndOf(crc: Crc, recs: seq<Bytes>, i: nat): nat
    requires i <= |recs|
  { |LogOf(crc, recs[..i])| }

  /** How many records lie wholly inside the first n bytes. */
  ghost function Complete(crc: Crc, recs: seq<Bytes>, n: nat): (k: nat)
    ensures k <= |recs|
  {
    if recs == [] || |LogOf(crc, recs)| <= n then |recs| else Complete(crc, recs[..|recs| - 1], n)
  }

  lemma {:induction false} LogPrefix(crc: Crc, recs: seq<Bytes>, i: nat)
    requires i <= |recs|
    ensures LogOf(crc, recs[..i]) <= LogOf(crc, recs)
    decreases |recs|
  {
    if i == |recs| {
      assert recs[..i] == recs;
    } else {
      LogPrefix(crc, recs[..|recs| - 1], i);
      assert recs[..|recs| - 1][..i] == recs[..i];
    }
  }

  /** Complete is the largest number of records that fit. */
  lemma {:induction false} CompleteIsLargest(crc: Crc, recs: seq<Bytes>, n: nat, i: nat)
    requires i <= |recs|
    ensures i <= Complete(crc, recs, n) <==> EndOf(crc, recs, i) <= n
    decreases |recs|
  {
    if recs == [] {
      assert recs[..i] == [];
    } else if |LogOf(crc, recs)| <= n {
      LogPrefix(crc, recs, i);
    } else if i == |recs| {
      assert recs[..i] == recs;
    } else {
      CompleteIsLargest(crc, recs[..|recs| - 1], n, i);
      assert recs[..|recs| - 1][..i] == recs[..i];
    }
  }

  lemma LogAppend(crc: Crc, recs: seq<Bytes>, r: Bytes)
    ensures LogOf(crc, recs + [r]) == LogOf(crc, recs) + Emit(crc, |LogOf(crc, recs)|, true, r)
  {
    assert (recs + [r])[..|recs|] == recs;
  }

  lemma SliceOfPrefix(log: Bytes, front: Bytes, e: Bytes)
    requires front + e <= log
    ensures log[|front|..|front| + |e|] == e
  {
    assert log[..|front| + |e|] == front + e;
    assert log[|front|..|front| + |e|] == (front + e)[|front|..];
  }

  lemma TakeOne(written: seq<Bytes>, recs: seq<Bytes>, i: nat)
    requires i < |recs|
    ensures written + recs[..i + 1] == (written + recs[..i]) + [recs[i]]
  {
  }

  lemma LogUpto(crc: Crc, recs: seq<Bytes>, i: nat)
    requires i < |recs|
    ensures LogOf(crc, recs[..i + 1]) == LogOf(crc, recs[..i]) + Emit(crc, EndOf(crc, recs, i), true, recs[i])
  {
    hide Emit;
    hide LogOf;
    LogAppend(crc, recs[..i], recs[i]);
    assert recs[..i + 1] == recs[..i] + [recs[i]];
  }

  /** Record i lies in the log where the first i end. */
  lemma RecordInLog(crc: Crc, recs: seq<Bytes>, i: nat)
    requires i < |recs|
    ensures EmitsAt(LogOf(crc, recs), EndOf(crc, recs, i), crc, true, recs[i])
    ensures EmitEnd(EndOf(crc, recs, i), crc, true, recs[i]) == EndOf(crc, recs, i + 1)
  {
    hide Emit;
    hide LogOf;
    LogUpto(crc, recs, i);
    LogPrefix(crc, recs, i + 1);
    SliceOfPrefix(LogOf(crc, recs), LogOf(crc, recs[..i]), Emit(crc, EndOf(crc, recs, i), true, recs[i]));
  }

  /** What the reader meets after i records of a file cut from the log. */
  lemma NextInFile(crc: Crc, recs: seq<Bytes>, i: nat, file: Bytes)
    requires i <= |recs| && file <= LogOf(crc, recs)
    ensures i == |recs| ==> |file| <= EndOf(crc, recs, i)
    ensures i < |recs| ==> EmitsAt(LogOf(crc, recs), EndOf(crc, recs, i), crc, true, recs[i])
    ensures i < |recs| ==> EmitEnd(EndOf(crc, recs, i), crc, true, recs[i]) == EndOf(crc, recs, i + 1)
    ensures i < |recs| ==> (i + 1 <= Complete(crc, recs, |file|) <==> EndOf(crc, recs, i + 1) <= |file|)
  {
    hide Emit;
    hide LogOf;
    hide EmitsAt;
    hide EmitEnd;
    hide Complete;
    if i < |recs| {
      RecordInLog(crc, recs, i);
      CompleteIsLargest(crc, recs, |file|, i + 1);
    } else {
      assert recs[..i] == recs;
    }
  }

  lemma NothingYet(crc: Crc, recs: seq<Bytes>)
    ensures EndOf(crc, recs, 0) == 0
  {
    assert recs[..0] == [];
  }

  // ---- what a reader makes of what was written ----

  lemma SeenWhole(file: Bytes, crc: Crc, p: nat, t: Byte, data: Bytes)
    requires t != ZERO && RecordAt(file, p, crc, t, data)
    ensures PhysicalAt(file, crc, p) == Seen(t as int, data, HeaderAt(p) + HEADER + |data|, [])
  {
    hide Unmask;
    hide DecodeFixed32;
    hide Physical;
    var q, len := HeaderAt(p), HEADER + |data|;
    HeaderFits(p);
    HeaderFits(q);
    WhatIsThere(file, crc, q, t, data);
    BlockOf(q, len);
  }

  lemma BlockOf(q: nat, len: nat)
    requires q % BLOCK + len <= BLOCK
    ensures q + len <= BlockEnd(q)
  {
    assert q == q / BLOCK * BLOCK + q % BLOCK;
  }

  /** The header and the payload of a physical record. */
  lemma WhatIsThere(file: Bytes, crc: Crc, q: nat, t: Byte, data: Bytes)
    requires |data| <= 0xffff && q + HEADER + |data| <= |file| && file[q..q + HEADER + |data|] == Physical(crc, t, data)
    ensures file[q + 4] as int + file[q + 5] as int * 256 == |data| && file[q + 6] == t
    ensures crc(file[q + 6..q + HEADER + |data|]) == Unmask(DecodeFixed32(file[q..]))
    ensures file[q + HEADER..q + HEADER + |data|] == data
  {
    hide Unmask;
    hide DecodeFixed32;
    hide Physical;
    var len := HEADER + |data|;
    var bs, tail := file[q..], file[q + len..];
    assert bs == Physical(crc, t, data) + tail by { assert bs[..len] == file[q..q + len] && bs[len..] == tail; }
    ParsePhysical(crc, t, data, tail);
    assert bs[4] == file[q + 4] && bs[5] == file[q + 5] && bs[6] == file[q + 6];
    assert bs[6..len] == file[q + 6..q + len] && bs[HEADER..len] == file[q + HEADER..q + len];
  }

  /** A record cut off by the end of the file is the end of the file. */
  lemma SeenCut(file: Bytes, log: Bytes, crc: Crc, p: nat, t: Byte, data: Bytes)
    requires file <= log && t != ZERO && RecordAt(log, p, crc, t, data) && HeaderAt(p) + HEADER + |data| > |file|
    ensures PhysicalAt(file, crc, p) == Seen(EOF, [], |file|, [])
  {
    hide Unmask;
    hide DecodeFixed32;
    hide Physical;
    var q := HeaderAt(p);
    HeaderFits(p);
    HeaderFits(q);
    WhatIsThere(log, crc, q, t, data);
    BlockOf(q, HEADER + |data|);
    if q + HEADER <= |file| { assert file[q + 4] == log[q + 4] && file[q + 5] == log[q + 5]; }
  }

  /** One turn of reading on, when the physical record is in order. */
  lemma ReadStep(file: Bytes, crc: Crc, p: nat, scratch: Bytes, inFragment: bool)
    requires PhysicalAt(file, crc, p).report == []
    ensures var s := PhysicalAt(file, crc, p);
            ReadOn(file, crc, p, scratch, inFragment)
            == match Assemble(s.code, s.fragment, scratch, inFragment)
               case Done(r, report) =>
                 var rest := ReadOn(file, crc, s.next, [], false);
                 ([r] + rest.0, report + rest.1)
               case End => ([], [])
               case More(scratch', inFragment', report) =>
                 var rest := ReadOn(file, crc, s.next, scratch', inFragment');
                 (rest.0, report + rest.1)
  {
    hide PhysicalAt;
    hide Assemble;
    var s := PhysicalAt(file, crc, p);
    assert forall r: seq<nat> :: s.report + r == r;
  }

  /** What is reported when a record starts although another has not ended. */
  function Unfinished(begin: bool, scratch: Bytes, inFragment: bool): seq<nat> {
    if begin && inFragment && |scratch| > 0 then [|scratch|] else []
  }

  lemma OnePiece(begin: bool, last: bool, fragment: Bytes, scratch: Bytes, inFragment: bool)
    requires begin || inFragment
    ensures var all := (if begin then [] else scratch) + fragment; var report := Unfinished(begin, scratch, inFragment);
            Assemble(TypeOf(begin, last) as int, fragment, scratch, inFragment)
            == if last then Done(all, report) else More(all, true, report)
  {
    assert [] + fragment == fragment;
  }

  /** A record written at p, or the rest of one, is read whatever the reader has in hand. */
  lemma {:induction false} RecordRead(file: Bytes, crc: Crc, p: nat, begin: bool, left: Bytes, scratch: Bytes,
                                      inFragment: bool)
    requires EmitsAt(file, p, crc, begin, left) && (!begin ==> inFragment)
    ensures var rest := ReadOn(file, crc, EmitEnd(p, crc, begin, left), [], false);
            ReadOn(file, crc, p, scratch, inFragment)
            == ([(if begin then [] else scratch) + left] + rest.0, Unfinished(begin, scratch, inFragment) + rest.1)
    decreases |left|, if FragmentLength(p, left) == 0 then 1 else 0
  {
    hide Assemble;
    hide Unfinished;
    hide PhysicalAt;
    hide EmitsAt;
    hide RecordAt;
    hide FragmentLength;
    hide HeaderAt;
    hide ReadOn;
    hide Emit;
    var n := FragmentLength(p, left);
    FirstFragment(file, p, crc, begin, left);
    EmitLength(crc, p, begin, left);
    SeenWhole(file, crc, p, TypeOf(begin, n == |left|), left[..n]);
    ReadStep(file, crc, p, scratch, inFragment);
    OnePiece(begin, n == |left|, left[..n], scratch, inFragment);
    assert left[..n] + left[n..] == left;
    if n < |left| {
      NextNotEmpty(p, left);
      var had := if begin then [] else scratch;
      RecordRead(file, crc, NextAt(p, left), false, left[n..], had + left[..n], true);
      Assoc(had, left[..n], left[n..]);
      NothingMore(ReadOn(file, crc, EmitEnd(p, crc, begin, left), [], false).1);
    } else {
      assert left[..n] == left;
    }
  }

  lemma NothingMore(told: seq<nat>)
    ensures Unfinished(false, [], true) + told == told && forall scratch :: Unfinished(false, scratch, true) == []
  {
  }

  /** An empty fragment is followed by one that is not. */
  lemma NextNotEmpty(p: nat, data: Bytes)
    ensures FragmentLength(p, data) == 0 && data != [] ==> FragmentLength(NextAt(p, data), data) > 0
  {
    AfterEmptyFragment(p, data);
  }

  /** Of a record that is cut off nothing is read, and nothing is reported. */
  lemma {:induction false} RecordCut(file: Bytes, log: Bytes, crc: Crc, p: nat, begin: bool, left: Bytes,
                                     scratch: Bytes,
                                     inFragment: bool)
    requires file <= log && EmitsAt(log, p, crc, begin, left) && EmitEnd(p, crc, begin, left) > |file|
    requires begin <==> !inFragment
    ensures ReadOn(file, crc, p, scratch, inFragment) == ([], [])
    decreases |left|, if FragmentLength(p, left) == 0 then 1 else 0
  {
    hide PhysicalAt;
    hide EmitsAt;
    hide ReadOn;
    hide Emit;
    hide RecordAt;
    hide FragmentLength;
    hide HeaderAt;
    var n := FragmentLength(p, left);
    FirstFragment(log, p, crc, begin, left);
    EmitLength(crc, p, begin, left);
    assert forall r: seq<nat> :: [] + r == r;
    if NextAt(p, left) > |file| {
      SeenCut(file, log, crc, p, TypeOf(begin, n == |left|), left[..n]);
      ReadStep(file, crc, p, scratch, inFragment);
    } else {
      StillThere(file, log, crc, p, TypeOf(begin, n == |left|), left[..n]);
      SeenWhole(file, crc, p, TypeOf(begin, n == |left|), left[..n]);
      ReadStep(file, crc, p, scratch, inFragment);
      NextNotEmpty(p, left);
      RecordCut(file, log, crc, NextAt(p, left), false, left[n..], if begin then left[..n]
                else scratch + left[..n], true);
    }
  }

  lemma StillThere(file: Bytes, log: Bytes, crc: Crc, p: nat, t: Byte, data: Bytes)
    requires file <= log && RecordAt(log, p, crc, t, data) && HeaderAt(p) + HEADER + |data| <= |file|
    ensures RecordAt(file, p, crc, t, data)
  {
    var q := HeaderAt(p);
    assert file[q..q + HEADER + |data|] == log[q..q + HEADER + |data|];
  }

  lemma NothingBehind(file: Bytes, crc: Crc, p: nat, scratch: Bytes, inFragment: bool)
    requires |file| <= p
    ensures ReadOn(file, crc, p, scratch, inFragment) == ([], [])
  {
    HeaderFits(p);
  }

  /** Any byte prefix of a log yields exactly the records wholly inside it, in order,
      and nothing is reported as corrupted. */
  lemma {:induction false} PrefixRead(crc: Crc, recs: seq<Bytes>, file: Bytes, i: nat)
    requires file <= LogOf(crc, recs) && i <= Complete(crc, recs, |file|)
    ensures ReadOn(file, crc, EndOf(crc, recs, i), [], false) == (recs[i..Complete(crc, recs, |file|)], [])
    decreases |recs| - i
  {
    hide LogOf;
    hide Complete;
    hide EmitsAt;
    hide EmitEnd;
    hide ReadOn;
    var k, log, p := Complete(crc, recs, |file|), LogOf(crc, recs), EndOf(crc, recs, i);
    NextInFile(crc, recs, i, file);
    if i < k {
      RecordInFile(file, log, crc, p, recs[i]);
      RecordRead(file, crc, p, true, recs[i], [], false);
      PrefixRead(crc, recs, file, i + 1);
      assert Unfinished(true, [], false) + [] == [] && [] + recs[i] == recs[i]
             && recs[i..k] == [recs[i]] + recs[i + 1..k];
    } else if i < |recs| {
      RecordCut(file, log, crc, p, true, recs[i], [], false);
    } else {
      NothingBehind(file, crc, p, [], false);
    }
  }

  lemma RecordInFile(file: Bytes, log: Bytes, crc: Crc, p: nat, rec: Bytes)
    requires file <= log && EmitsAt(log, p, crc, true, rec) && EmitEnd(p, crc, true, rec) <= |file|
    ensures EmitsAt(file, p, crc, true, rec)
  {
    hide Emit;
    var end := EmitEnd(p, crc, true, rec);
    assert file[p..end] == log[p..end];
  }

  /** All records of any file, and what is reported of the rest. */
  method ReadAll(crc: Crc, file: Bytes) returns (out: seq<Bytes>, reports: seq<nat>)
    ensures (out, reports) == ReadOn(file, crc, 0, [], false)
  {
    hide ReadOn;
    var reader := new Reader(crc, file);
    out := [];
    ghost var all := ReadOn(file, crc, 0, [], false);
    assert [] + all.0 == all.0 && [] + all.1 == all.1;
    while true
      invariant fresh(reader) && reader.Valid() && reader.crc == crc && reader.file == file
      invariant var rest := ReadOn(file, crc, reader.Pos(), [], false); all == (out + rest.0, reader.reports + rest.1)
      decreases |file| - reader.Pos()
    {
      ghost var before, told := out, reader.reports;
      var ok, record := reader.ReadRecord();
      ghost var rest := ReadOn(file, crc, reader.Pos(), [], false);
      assert reader.reports == told + reader.reports[|told|..];
      if !ok {
        assert out + [] == out;
        return out, reader.reports;
      }
      out := out + [record];
      Assoc(before, [record], rest.0);
      Assoc(told, reader.reports[|told|..], rest.1);
    }
  }

  /** Appending through a writer on a complete log, new or reopened. */
  method AppendAll(crc: Crc, file: Bytes, ghost written: seq<Bytes>, recs: seq<Bytes>) returns (file': Bytes)
    requires file == LogOf(crc, written)
    ensures file' == LogOf(crc, written + recs)
  {
    var writer := new Writer(crc, file);
    assert written + recs[..0] == written;
    for i := 0 to |recs|
      invariant fresh(writer) && writer.Valid() && writer.crc == crc
      invariant writer.dest == LogOf(crc, written + recs[..i])
    {
      LogAppend(crc, written + recs[..i], recs[i]);
      writer.AddRecord(recs[i]);
      TakeOne(written, recs, i);
    }
    assert recs[..|recs|] == recs;
    file' := writer.dest;
  }

  /** Write, close, reopen, write, crash at any byte, recover. */
  method WriteCrashRecover(crc: Crc, first: seq<Bytes>, second: seq<Bytes>, crash: nat)
    returns (out: seq<Bytes>, reports: seq<nat>)
    requires crash <= |LogOf(crc, first + second)|
    ensures out == (first + second)[..Complete(crc, first + second, crash)] && reports == []
    ensures crash == |LogOf(crc, first + second)| ==> out == first + second
  {
    var file := AppendAll(crc, [], [], first);
    assert [] + first == first;
    file := AppendAll(crc, file, first, second);
    NothingYet(crc, first + second);
    PrefixRead(crc, first + second, file[..crash], 0);
    out, reports := ReadAll(crc, file[..crash]);
  }
}
