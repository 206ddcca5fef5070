/** The manifest, a log of version edits: what VersionSet::LogAndApply adds to it and what
    VersionSet::Recover makes of it (db/version_set.cc). */
module Manifests {
  import opened InternalKeys
  import opened Coding
  import opened VersionEdits
  import Versions

  // ---- files by level ----

  type Tables = set<(Word, FileMeta)>

  ghost function AddedPairs(e: Edit): Tables { set n | n in e.added }

  ghost function PairNumbers(ts: Tables): set<(Word, Word64)> { set t | t in ts :: (t.0, t.1.number) }

  /** What one edit makes of the files: an added file stays even if its number is deleted. */
  ghost function Next(ts: Tables, e: Edit): Tables {
    set t | t in ts + AddedPairs(e) && (t.0, t.1.number) !in e.deleted - PairNumbers(AddedPairs(e))
  }

  ghost function Evolved(edits: seq<Edit>): Tables {
    if edits == [] then {} else Next(Evolved(edits[..|edits| - 1]), edits[|edits| - 1])
  }

  /** compact_pointer_, as Builder::Apply sets it. */
  function Pointed(at: seq<Option<Bytes>>, ps: seq<(Word, Bytes)>): (r: seq<Option<Bytes>>)
    ensures |r| == |at|
  {
    if ps == [] then at else
      var n := |ps| - 1;
      var r := Pointed(at, ps[..n]);
      if ps[n].0 < |r| then r[ps[n].0 := Some(ps[n].1)] else r
  }

  ghost predicate AllShort(at: seq<Option<Bytes>>) {
    forall l :: 0 <= l < |at| && at[l].Some? ==> ShortSlice(at[l].value)
  }

  const NO_KEYS: seq<Option<Bytes>> := [None, None, None, None, None, None, None]

  function AllPointed(edits: seq<Edit>): (r: seq<Option<Bytes>>)
    ensures |r| == Versions.NUM_LEVELS
  {
    if edits == [] then NO_KEYS
    else Pointed(AllPointed(edits[..|edits| - 1]), edits[|edits| - 1].compactPointers)
  }

  /** The pointers of the first n levels, as WriteSnapshot lists them. */
  function Listed(at: seq<Option<Bytes>>, n: nat): seq<(Word, Bytes)>
    requires n <= |at| <= Versions.NUM_LEVELS
  {
    if n == 0 then [] else Listed(at, n - 1) + if at[n - 1].Some? then [(n - 1, at[n - 1].value)] else []
  }

  lemma {:induction false} ListedPairs(at: seq<Option<Bytes>>, n: nat)
    requires n <= |at| == Versions.NUM_LEVELS
    ensures forall p :: p in Listed(at, n) ==> p.0 < n && at[p.0] == Some(p.1)
  {
    if n > 0 { ListedPairs(at, n - 1); }
  }

  lemma PointedOneMore(at: seq<Option<Bytes>>, ps: seq<(Word, Bytes)>, p: (Word, Bytes))
    requires p.0 < |at|
    ensures Pointed(at, ps + [p]) == Pointed(at, ps)[p.0 := Some(p.1)]
  {
    assert (ps + [p])[..|ps|] == ps;
  }

  lemma {:induction false} ListedBack(at: seq<Option<Bytes>>, n: nat)
    requires n <= |at| == Versions.NUM_LEVELS
    ensures forall l :: 0 <= l < 7 ==> Pointed(NO_KEYS, Listed(at, n))[l] == if l < n then at[l] else None
  {
    if n > 0 {
      hide Pointed;
      ListedBack(at, n - 1);
      if at[n - 1].Some? { PointedOneMore(NO_KEYS, Listed(at, n - 1), (n - 1, at[n - 1].value)); }
      else { assert Listed(at, n) == Listed(at, n - 1); }
    }
  }

  // ---- what Recover gathers ----

  datatype Gathered = Gathered(edits: seq<Edit>, logNumber: Option<Word64>, prevLogNumber: Option<Word64>,
                               nextFile: Option<Word64>, lastSequence: Option<Word64>)

  const NOTHING := Gathered([], None, None, None, None)

  function Latest(was: Option<Word64>, now: Option<Word64>): Option<Word64> { if now.Some? then now else was }

  function Gather(g: Gathered, e: Edit): Gathered {
    Gathered(g.edits + [e], Latest(g.logNumber, e.logNumber), Latest(g.prevLogNumber, e.prevLogNumber),
             Latest(g.nextFile, e.nextFile), Latest(g.lastSequence, e.lastSequence))
  }

  datatype Status = Fine | Corruption(msg: string) | InvalidArgument

  /** One record, read with the comparator `name`. */
  function ReadEdit(record: Bytes, name: Bytes): (Edit, Status) {
    var (e, msg) := Decoded(record, 0, Cleared([]));
    (e, if msg.Some? then Corruption(msg.value)
        else if e.comparator.Some? && e.comparator.value != name then InvalidArgument else Fine)
  }

  /** All records up to the first that is not accepted. */
  function Replay(records: seq<Bytes>, name: Bytes): (Gathered, Status) {
    if records == [] then (NOTHING, Fine) else
      var n := |records| - 1;
      var (g, s) := Replay(records[..n], name);
      if s != Fine then (g, s) else
        var (e, s') := ReadEdit(records[n], name);
        if s' == Fine then (Gather(g, e), Fine) else (g, s')
  }

  lemma ReplayOneMore(records: seq<Bytes>, name: Bytes, e: Edit)
    requires Replay(records, name).1 == Fine && Encodable(e) && (e.comparator.Some? ==> e.comparator.value == name)
    ensures Replay(records + [Encoded(e)], name) == (Gather(Replay(records, name).0, e), Fine)
  {
    DecodesBack([], e);
    assert (records + [Encoded(e)])[..|records|] == records;
  }

  /** The four numbers an edit may carry. */
  datatype Number = LogNumber | PrevLogNumber | NextFileNumber | LastSequence

  function NumberOf(e: Edit, which: Number): Option<Word64> {
    match which
    case LogNumber => e.logNumber
    case PrevLogNumber => e.prevLogNumber
    case NextFileNumber => e.nextFile
    case LastSequence => e.lastSequence
  }

  function GatheredNumber(g: Gathered, which: Number): Option<Word64> {
    match which
    case LogNumber => g.logNumber
    case PrevLogNumber => g.prevLogNumber
    case NextFileNumber => g.nextFile
    case LastSequence => g.lastSequence
  }

  /** Record i has this number, and none behind it has another. */
  ghost predicate LastToSay(records: seq<Bytes>, name: Bytes, which: Number, n: Word64, i: nat)
    requires i < |records|
  {
    && NumberOf(ReadEdit(records[i], name).0, which) == Some(n)
    && forall j :: i < j < |records| ==> NumberOf(ReadEdit(records[j], name).0, which) == None
  }

  /** Of each number the last record that has it decides. */
  lemma {:induction false} LastOneCounts(records: seq<Bytes>, name: Bytes, which: Number)
    requires Replay(records, name).1 == Fine
    ensures match GatheredNumber(Replay(records, name).0, which)
            case None => forall i :: 0 <= i < |records| ==> NumberOf(ReadEdit(records[i], name).0, which) == None
            case Some(n) => exists i: nat :: i < |records| && LastToSay(records, name, which, n, i)
    decreases |records|
  {
    hide ReadEdit;
    if records != [] {
      var m := |records| - 1;
      var less := records[..m];
      LastOneCounts(less, name, which);
      var before := GatheredNumber(Replay(less, name).0, which);
      if NumberOf(ReadEdit(records[m], name).0, which).Some? {
        assert LastToSay(records, name, which, NumberOf(ReadEdit(records[m], name).0, which).value, m);
      } else if before.Some? {
        var i: nat :| i < m && LastToSay(less, name, which, before.value, i);
        forall j | i < j < |records| ensures NumberOf(ReadEdit(records[j], name).0, which) == None {
          if j < m { assert less[j] == records[j]; }
        }
        assert less[i] == records[i];
        assert LastToSay(records, name, which, before.value, i);
      } else {
        assert forall i :: 0 <= i < m ==> less[i] == records[i];
      }
    }
  }

  /** A snapshot edit adds files to none. */
  lemma NextFromNone(e: Edit)
    requires e.deleted == {}
    ensures Evolved([e]) == AddedPairs(e)
  {
    assert [e][..0] == [] && Evolved([]) == {};
    assert Evolved([e]) == Next(Evolved([e][..0]), e);
  }

  lemma EvolvedOneMore(edits: seq<Edit>, e: Edit)
    ensures Evolved(edits + [e]) == Next(Evolved(edits), e)
  {
    assert (edits + [e])[..|edits|] == edits;
  }

  // ---- the version set ----

  const MAX_WORD64: Word64 := 0xFFFF_FFFF_FFFF_FFFF

  /** One more, in 64-bit arithmetic. */
  function After(n: Word64): Word64 { if n == MAX_WORD64 then 0 else n + 1 }

  function Or0(n: Option<Word64>): Word64 { if n.Some? then n.value else 0 }

  ghost predicate NumbersBelow(ts: Tables, n: nat) { forall t :: t in ts ==> t.1.number < n }

  /** The edit WriteSnapshot writes. */
  function Snapshot(name: Bytes, pointers: seq<Option<Bytes>>, files: seq<(Word, FileMeta)>): Edit
    requires |pointers| == Versions.NUM_LEVELS
  {
    Edit(Some(name), None, None, None, None, Listed(pointers, Versions.NUM_LEVELS), {}, files)
  }

  /** What LogAndApply makes of an edit before it is written. */
  function Filled(e: Edit, log: Word64, prev: Word64, next: Word64, last: Word64): Edit {
    e.(logNumber := if e.logNumber.Some? then e.logNumber else Some(log),
       prevLogNumber := if e.prevLogNumber.Some? then e.prevLogNumber else Some(prev),
       nextFile := Some(next), lastSequence := Some(last))
  }

  /** The records replay to these files. */
  ghost predicate Replays(records: seq<Bytes>, name: Bytes, g: Gathered, files: Tables) {
    Replay(records, name) == (g, Fine) && Evolved(g.edits) == files
  }

  lemma ReplaysOneMore(records: seq<Bytes>, name: Bytes, g: Gathered, files: Tables, e: Edit)
    requires Replays(records, name, g, files) && Encodable(e) && e.comparator == None
    ensures Replays(records + [Encoded(e)], name, Gather(g, e), Next(files, e))
    ensures AllPointed(Gather(g, e).edits) == Pointed(AllPointed(g.edits), e.compactPointers)
  {
    ReplayOneMore(records, name, e);
    EvolvedOneMore(g.edits, e);
    AllPointedOneMore(g.edits, e);
  }

  lemma NextFits(files: Tables, e: Edit, n: nat)
    requires Encodable(e) && NumbersBelow(files, n) && NumbersBelow(AddedPairs(e), n)
    requires forall t :: t in files ==> t.0 < Versions.NUM_LEVELS && FileFits(t.1)
    ensures NumbersBelow(Next(files, e), n)
    ensures forall t :: t in Next(files, e) ==> t.0 < Versions.NUM_LEVELS && FileFits(t.1)
  {
  }

  /** What Recover reports once the records are read. */
  function Verdict(g: Gathered, s: Status): Status {
    if s != Fine then s
    else if g.nextFile.None? then Corruption("no meta-nextfile entry in descriptor")
    else if g.logNumber.None? then Corruption("no meta-lognumber entry in descriptor")
    else if g.lastSequence.None? then Corruption("no last-sequence-number entry in descriptor")
    else Fine
  }

  /** Numbers that LogAndApply would have written. */
  ghost predicate Sound(g: Gathered) {
    && g.logNumber.Some? && g.nextFile.Some? && g.lastSequence.Some?
    && g.logNumber.value < g.nextFile.value < MAX_WORD64 - 1 && NumbersBelow(Evolved(g.edits), g.nextFile.value)
  }

  lemma ReplayNone(name: Bytes)
    ensures Replay([], name) == (NOTHING, Fine)
  {
  }

  /** One more record, good or bad; a bad one ends the replay. */
  lemma {:induction false} ReplayOn(records: seq<Bytes>, name: Bytes, i: nat)
    requires i < |records| && Replay(records[..i], name).1 == Fine
    ensures var (e, s) := ReadEdit(records[i], name);
            && (s == Fine ==> Replay(records[..i + 1], name) == (Gather(Replay(records[..i], name).0, e), Fine))
            && (s != Fine ==> Replay(records, name).1 == s)
  {
    assert records[..i + 1][..i] == records[..i] && records[..i + 1][i] == records[i];
    if ReadEdit(records[i], name).1 != Fine { StaysBad(records, name, i + 1); }
  }

  lemma {:induction false} StaysBad(records: seq<Bytes>, name: Bytes, n: nat)
    requires n <= |records| && Replay(records[..n], name).1 != Fine
    ensures Replay(records, name).1 == Replay(records[..n], name).1
    decreases |records|
  {
    if n == |records| {
      assert records[..n] == records;
    } else {
      var front := records[..|records| - 1];
      assert front[..n] == records[..n];
      StaysBad(front, name, n);
    }
  }

  lemma {:induction false} ReplayFits(records: seq<Bytes>, name: Bytes)
    ensures var g := Replay(records, name).0;
            && (forall e :: e in g.edits ==> Encodable(e))
            && (forall t :: t in Evolved(g.edits) ==> t.0 < Versions.NUM_LEVELS && FileFits(t.1))
            && AllShort(AllPointed(g.edits))
    decreases |records|
  {
    if records != [] {
      var n := |records| - 1;
      ReplayFits(records[..n], name);
      var g, e := Replay(records[..n], name).0, Decoded(records[n], 0, Cleared([])).0;
      DecodedFits(records[n], 0, Cleared([]));
      EvolvedOneMore(g.edits, e);
      AllPointedOneMore(g.edits, e);
      PointedFits(AllPointed(g.edits), e);
    }
  }

  /** The numbers, pointers and files of a version set. */
  datatype Facts = Facts(log: Word64, prev: Word64, next: Word64, last: Word64, pointers: seq<Option<Bytes>>,
                         files: Tables)

  /** Those of now, and those in the manifest. */
  datatype Held = Held(now: Facts, saved: Option<Facts>)

  const NEW := Held(Facts(0, 0, 2, 0, NO_KEYS, {}), None)

  /** How the writes to the manifest end: well, or failing with the record lost or stored. */
  datatype Fault = NoFault | Lost | Stored

  class VersionSet {
    const name: Bytes  // of the user comparator
    var logNumber: Word64
    var prevLogNumber: Word64
    var nextFileNumber: Word64
    var lastSequence: Word64
    var compactPointer: seq<Option<Bytes>>
    var descriptorLog: Option<seq<Bytes>>  // the records of the open manifest
    ghost var current: Tables              // the files of the current version
    ghost var logged: Gathered             // what the records say

    ghost predicate Fits()
      reads this
    {
      && |compactPointer| == Versions.NUM_LEVELS && ShortSlice(name)
      && (forall t :: t in current ==> t.0 < Versions.NUM_LEVELS && FileFits(t.1))
      && AllShort(compactPointer)
    }

    /** The open manifest replays to the current files and numbers; what it says of the next
        file is above every number in use. */
    ghost predicate Logged()
      reads this
    {
      && descriptorLog.Some? && Replays(descriptorLog.value, name, logged, current)
      && logged.logNumber == Some(logNumber) && Or0(logged.prevLogNumber) == prevLogNumber
      && logged.nextFile.Some? && logNumber < logged.nextFile.value <= nextFileNumber
         && NumbersBelow(current, logged.nextFile.value)
      && logged.lastSequence.Some? && logged.lastSequence.value <= lastSequence
    }

    ghost predicate Valid()
      reads this
    {
      && Fits() && NumbersBelow(current, nextFileNumber) && logNumber < nextFileNumber < MAX_WORD64
      && (descriptorLog.Some? ==> Logged())
    }

    ghost function Holds(): Held
      requires Valid()
      reads this
    {
      Held(Facts(logNumber, prevLogNumber, nextFileNumber, lastSequence, compactPointer, current),
           if descriptorLog.None? then None
           else Some(Facts(logNumber, prevLogNumber, logged.nextFile.value, logged.lastSequence.value,
                           AllPointed(logged.edits), current)))
    }

    constructor (name: Bytes)
      requires ShortSlice(name)
      ensures Valid() && this.name == name && descriptorLog == None && current == {} && compactPointer == NO_KEYS
      ensures logNumber == prevLogNumber == lastSequence == 0 && nextFileNumber == 2
    {
      this.name := name;
      logNumber, prevLogNumber, nextFileNumber, lastSequence := 0, 0, 2, 0;
      compactPointer, descriptorLog, current, logged := NO_KEYS, None, {}, NOTHING;
    }

    /** SetupOtherInputs moves a pointer on before any edit says so. */
    method SetCompactPointer(level: nat, key: Bytes)
      requires Valid() && level < Versions.NUM_LEVELS && ShortSlice(key)
      modifies this`compactPointer
      ensures Valid() && compactPointer == old(compactPointer)[level := Some(key)]
    {
      compactPointer := compactPointer[level := Some(key)];
    }

    method NewFileNumber() returns (n: Word64)
      requires Valid() && nextFileNumber + 1 < MAX_WORD64
      modifies this`nextFileNumber
      ensures Valid() && n == old(nextFileNumber) && nextFileNumber == n + 1
    {
      n := nextFileNumber;
      nextFileNumber := nextFileNumber + 1;
    }

    method MarkFileNumberUsed(number: Word64)
      requires Valid() && number + 1 < MAX_WORD64
      modifies this`nextFileNumber
      ensures Valid() && nextFileNumber == if old(nextFileNumber) <= number then number + 1 else old(nextFileNumber)
    {
      if nextFileNumber <= number { nextFileNumber := number + 1; }
    }

    method SetLastSequence(s: Word64)
      requires Valid() && s >= lastSequence
      modifies this`lastSequence
      ensures Valid() && lastSequence == s
    {
      lastSequence := s;
    }

    /** WriteSnapshot: `files` are those of the current version, level by level. */
    method WriteSnapshot(files: seq<(Word, FileMeta)>) returns (record: Bytes)
      requires |compactPointer| == Versions.NUM_LEVELS
      ensures record == Encoded(Snapshot(name, compactPointer, files))
    {
      var edit := new VersionEdit();
      edit.comparator := Some(name);
      for level := 0 to Versions.NUM_LEVELS
        invariant edit.View() == Cleared(Listed(compactPointer, level)).(comparator := Some(name))
      {
        if compactPointer[level].Some? {
          edit.compactPointers := edit.compactPointers + [(level, compactPointer[level].value)];
        } else {
          assert Listed(compactPointer, level + 1) == Listed(compactPointer, level);
        }
      }
      edit.newFiles := files;
      record := edit.EncodeTo();
    }

    /** LogAndApply: the first call opens a new manifest with a snapshot of the files of before
        and the pointers of after.  When a write fails nothing is installed, but the pointers
        have moved; a new manifest is deleted, an old one may hold the record all the same. */
    method LogAndApply(edit: VersionEdit, files: seq<(Word, FileMeta)>, fault: Fault) returns (ok: bool)
      requires Valid() && Encodable(edit.View()) && edit.comparator == None
      requires edit.logNumber.Some? ==> logNumber <= edit.logNumber.value < nextFileNumber
      requires NumbersBelow(AddedPairs(edit.View()), nextFileNumber)
      requires descriptorLog == None ==> (set n | n in files) == current
      modifies this, edit
      ensures ok <==> fault.NoFault?
      ensures edit.View() == Filled(old(edit.View()), old(logNumber), old(prevLogNumber), nextFileNumber, lastSequence)
      ensures nextFileNumber == old(nextFileNumber) && lastSequence == old(lastSequence)
      ensures compactPointer == Pointed(old(compactPointer), edit.compactPointers)
      ensures old(descriptorLog).Some? ==>
                descriptorLog == if fault.Lost? then old(descriptorLog)
                                 else Some(old(descriptorLog).value + [Encoded(edit.View())])
      ensures old(descriptorLog).None? ==>
                descriptorLog == if !ok then None
                                 else Some([Encoded(Snapshot(name, compactPointer, files)), Encoded(edit.View())])
      ensures ok ==>
                && Valid() && current == Next(old(current), edit.View())
                && Some(logNumber) == edit.logNumber && Some(prevLogNumber) == edit.prevLogNumber
                && logged.nextFile == Some(nextFileNumber) && logged.lastSequence == Some(lastSequence)
                && AllPointed(logged.edits)
                   == if old(descriptorLog).None? then compactPointer
                      else Pointed(AllPointed(old(logged).edits), edit.compactPointers)
      ensures !ok ==> current == old(current) && logNumber == old(logNumber) && prevLogNumber == old(prevLogNumber)
      ensures !ok && (fault.Lost? || descriptorLog == None) ==> Valid() && logged == old(logged)
      ensures !ok && fault.Stored? && descriptorLog.Some? ==>
                Fits() && Replays(descriptorLog.value, name, logged, Next(current, edit.View()))
    {
      hide Replays;
      hide Encodable;
      hide Next;
      hide Pointed;
      hide AllPointed;
      hide Encoded;
      hide AddedPairs;
      hide NumbersBelow;
      hide Snapshot;
      hide ShortSlice;
      hide FileFits;
      hide AllShort;
      ok := fault.NoFault?;
      PointedFits(compactPointer, edit.View());
      NextFits(current, edit.View(), nextFileNumber);
      FillIn(edit);
      SameFiles(current, old(edit.View()), edit.View());
      PointedTwice(compactPointer, edit.compactPointers);
      compactPointer := Pointed(compactPointer, edit.compactPointers);
      if descriptorLog.None? {
        if !ok { return; }
        OpenManifest(files);
      }
      if fault.Lost? { return; }
      AddRecord(edit);
      if !ok { return; }
      current := Next(current, edit.View());
      logNumber, prevLogNumber := edit.logNumber.value, edit.prevLogNumber.value;
    }

    /** One more record in the open manifest. */
    method AddRecord(edit: VersionEdit)
      requires descriptorLog.Some? && Replays(descriptorLog.value, name, logged, current)
      requires Encodable(edit.View()) && edit.comparator == None
      modifies this`descriptorLog, this`logged
      ensures descriptorLog == Some(old(descriptorLog).value + [Encoded(edit.View())])
              && logged == Gather(old(logged), edit.View())
      ensures |old(descriptorLog).value| == 1 ==>
                descriptorLog.value == [old(descriptorLog).value[0], Encoded(edit.View())]
      ensures Replays(descriptorLog.value, name, logged, Next(current, edit.View()))
      ensures AllPointed(logged.edits) == Pointed(AllPointed(old(logged).edits), edit.compactPointers)
    {
      hide Replays;
      hide Encodable;
      hide Encoded;
      hide Next;
      hide Pointed;
      hide AllPointed;
      var record := edit.EncodeTo();
      ReplaysOneMore(descriptorLog.value, name, logged, current, edit.View());
      descriptorLog, logged := Some(descriptorLog.value + [record]), Gather(logged, edit.View());
    }

    method FillIn(edit: VersionEdit)
      modifies edit
      ensures edit.View() == Filled(old(edit.View()), logNumber, prevLogNumber, nextFileNumber, lastSequence)
    {
      if edit.logNumber.None? { edit.logNumber := Some(logNumber); }
      if edit.prevLogNumber.None? { edit.prevLogNumber := Some(prevLogNumber); }
      edit.nextFileNumber, edit.lastSequence := Some(nextFileNumber), Some(lastSequence);
    }

    method ReadOne(record: Bytes) returns (edit: VersionEdit, s: Status)
      ensures fresh(edit) && (edit.View(), s) == ReadEdit(record, name)
    {
      edit := new VersionEdit();
      s := Fine;
      var msg := edit.DecodeFrom(record);
      if msg.Some? { s := Corruption(msg.value); }
      else if edit.comparator.Some? && edit.comparator.value != name { s := InvalidArgument; }
    }

    /** Recover, on a new version set: all records of the manifest go through one builder. */
    method Recover(records: seq<Bytes>, reuse: bool) returns (status: Status)
      requires Valid() && descriptorLog == None && compactPointer == NO_KEYS
      modifies this
      ensures var (g, s) := Replay(records, name);
              && status == Verdict(g, s)
              && (status == Fine ==>
                    && Some(logNumber) == g.logNumber && prevLogNumber == Or0(g.prevLogNumber)
                    && nextFileNumber == After(g.nextFile.value) && Some(lastSequence) == g.lastSequence
                    && current == Evolved(g.edits) && compactPointer == AllPointed(g.edits) && logged == g
                    && descriptorLog == (if reuse then Some(records) else None))
              && (status == Fine && Sound(g) ==> Valid())
    {
      hide Replay;
      hide Evolved;
      hide Encodable;
      hide AllPointed;
      hide AllShort;
      hide ShortSlice;
      hide FileFits;
      var s, logN, prevN, nextN, lastN;
      ghost var g;
      g, s, logN, prevN, nextN, lastN := ReadAll(records);
      if s == Fine {
        if nextN.None? { s := Corruption("no meta-nextfile entry in descriptor"); }
        else if logN.None? { s := Corruption("no meta-lognumber entry in descriptor"); }
        else if lastN.None? { s := Corruption("no last-sequence-number entry in descriptor"); }
        if prevN.None? { prevN := Some(0); }
        if nextFileNumber <= prevN.value { nextFileNumber := After(prevN.value); }
        if logN.Some? && nextFileNumber <= logN.value { nextFileNumber := After(logN.value); }
      }
      if s == Fine {
        nextFileNumber := After(nextN.value);
        lastSequence, logNumber, prevLogNumber := lastN.value, logN.value, prevN.value;
        ReplayFits(records, name);
        current, logged := Evolved(g.edits), g;
        if reuse { descriptorLog := Some(records); }
      }
      status := s;
    }

    /** The loop over the records. */
    method ReadAll(records: seq<Bytes>)
      returns (ghost g: Gathered, s: Status, logN: Option<Word64>, prevN: Option<Word64>, nextN: Option<Word64>,
               lastN: Option<Word64>)
      requires compactPointer == NO_KEYS
      modifies this`compactPointer
      ensures Replay(records, name).1 == s && |compactPointer| == Versions.NUM_LEVELS
      ensures s == Fine ==>
                Replay(records, name).0 == g == Gathered(g.edits, logN, prevN, nextN, lastN)
                && compactPointer == AllPointed(g.edits)
    {
      hide Replay;
      hide ReadEdit;
      hide Pointed;
      g, s := NOTHING, Fine;
      logN, prevN, nextN, lastN := None, None, None, None;
      ReplayNone(name);
      var i := 0;
      while i < |records| && s == Fine
        invariant i <= |records| && |compactPointer| == Versions.NUM_LEVELS
        invariant s == Fine ==>
                    Replay(records[..i], name) == (g, Fine)
                    && g == Gathered(g.edits, logN, prevN, nextN, lastN)
        invariant s == Fine ==> compactPointer == AllPointed(g.edits)
        invariant s != Fine ==> Replay(records, name).1 == s
        decreases |records| - i
      {
        var edit;
        edit, s := ReadOne(records[i]);
        ReplayOn(records, name, i);
        if s == Fine {
          AllPointedOneMore(g.edits, edit.View());
          compactPointer := Pointed(compactPointer, edit.compactPointers);
          g := Gather(g, edit.View());
        }
        if edit.logNumber.Some? { logN := edit.logNumber; }
        if edit.prevLogNumber.Some? { prevN := edit.prevLogNumber; }
        if edit.nextFileNumber.Some? { nextN := edit.nextFileNumber; }
        if edit.lastSequence.Some? { lastN := edit.lastSequence; }
        i := i + 1;
      }
      assert s == Fine ==> records[..i] == records;
    }

    method OpenManifest(files: seq<(Word, FileMeta)>)
      requires Fits() && (set n | n in files) == current
      modifies this`descriptorLog, this`logged
      ensures descriptorLog == Some([Encoded(Snapshot(name, compactPointer, files))])
      ensures Replays(descriptorLog.value, name, logged, current) && AllPointed(logged.edits) == compactPointer
    {
      var first := WriteSnapshot(files);
      SnapshotLogged(name, compactPointer, files);
      descriptorLog, logged := Some([first]), Gather(NOTHING, Snapshot(name, compactPointer, files));
    }
  }

  lemma AllPointedOneMore(edits: seq<Edit>, e: Edit)
    ensures AllPointed(edits + [e]) == Pointed(AllPointed(edits), e.compactPointers)
  {
    assert (edits + [e])[..|edits|] == edits;
  }

  lemma {:induction false} PointedShort(at: seq<Option<Bytes>>, ps: seq<(Word, Bytes)>)
    requires AllShort(at)
    requires forall p :: p in ps ==> ShortSlice(p.1)
    ensures AllShort(Pointed(at, ps))
  {
    if ps != [] { PointedShort(at, ps[..|ps| - 1]); }
  }

  lemma {:induction false} PointedEither(a: seq<Option<Bytes>>, b: seq<Option<Bytes>>, ps: seq<(Word, Bytes)>, l: nat)
    requires l < |a| == |b|
    ensures Pointed(a, ps)[l] == Pointed(b, ps)[l] || (Pointed(a, ps)[l] == a[l] && Pointed(b, ps)[l] == b[l])
  {
    if ps != [] { PointedEither(a, b, ps[..|ps| - 1], l); }
  }

  lemma PointedTwice(at: seq<Option<Bytes>>, ps: seq<(Word, Bytes)>)
    ensures Pointed(Pointed(at, ps), ps) == Pointed(at, ps)
  {
    hide Pointed;
    forall l | 0 <= l < |at| ensures Pointed(Pointed(at, ps), ps)[l] == Pointed(at, ps)[l] {
      PointedEither(at, Pointed(at, ps), ps, l);
    }
  }

  lemma PointedFits(at: seq<Option<Bytes>>, e: Edit)
    requires AllShort(at)
    requires Encodable(e)
    ensures AllShort(Pointed(at, e.compactPointers))
  {
    PointedShort(at, e.compactPointers);
  }

  /** The numbers of an edit do not matter to the files. */
  lemma SameFiles(files: Tables, e: Edit, e': Edit)
    requires e'.deleted == e.deleted && e'.added == e.added && e'.compactPointers == e.compactPointers
             && e'.comparator == e.comparator
    ensures Next(files, e') == Next(files, e) && (Encodable(e) <==> Encodable(e'))
  {
    assert AddedPairs(e) == AddedPairs(e');
  }

  lemma SnapshotFits(name: Bytes, pointers: seq<Option<Bytes>>, files: seq<(Word, FileMeta)>)
    requires |pointers| == Versions.NUM_LEVELS && ShortSlice(name)
    requires AllShort(pointers)
    requires forall n :: n in files ==> n.0 < Versions.NUM_LEVELS && FileFits(n.1)
    ensures Encodable(Snapshot(name, pointers, files))
  {
    ListedPairs(pointers, Versions.NUM_LEVELS);
  }

  lemma SnapshotPointers(name: Bytes, pointers: seq<Option<Bytes>>, files: seq<(Word, FileMeta)>)
    requires |pointers| == Versions.NUM_LEVELS
    ensures AllPointed([Snapshot(name, pointers, files)]) == pointers
  {
    var e := Snapshot(name, pointers, files);
    ListedBack(pointers, Versions.NUM_LEVELS);
    AllPointedOneMore([], e);
    assert [] + [e] == [e];
    assert Pointed(NO_KEYS, Listed(pointers, Versions.NUM_LEVELS)) == pointers;
  }

  /** A manifest with nothing but a snapshot replays to the version it was taken from. */
  lemma SnapshotLogged(name: Bytes, pointers: seq<Option<Bytes>>, files: seq<(Word, FileMeta)>)
    requires |pointers| == Versions.NUM_LEVELS && ShortSlice(name)
    requires AllShort(pointers)
    requires forall n :: n in files ==> n.0 < Versions.NUM_LEVELS && FileFits(n.1)
    ensures var e := Snapshot(name, pointers, files);
            Replays([Encoded(e)], name, Gather(NOTHING, e), set n | n in files)
                && AllPointed(Gather(NOTHING, e).edits) == pointers
  {
    hide Encoded;
    hide Encodable;
    hide Listed;
    hide AllPointed;
    var e := Snapshot(name, pointers, files);
    SnapshotFits(name, pointers, files);
    SnapshotPointers(name, pointers, files);
    assert Replay([], name) == (NOTHING, Fine) && [] + [Encoded(e)] == [Encoded(e)];
    ReplayOneMore([], name, e);
    NextFromNone(e);
    assert Gather(NOTHING, e).edits == [e] && AddedPairs(e) == set n | n in files;
  }

  /** Closing and recovering gives the same files and log numbers, and file numbers that
      nothing uses. */
  method Reopen(was: VersionSet, reuse: bool) returns (now: VersionSet, status: Status)
    requires was.Valid() && was.descriptorLog.Some? && was.nextFileNumber < MAX_WORD64 - 1
    ensures status == Fine && fresh(now) && now.Valid() && now.name == was.name
    ensures now.current == was.current && now.logNumber == was.logNumber && now.prevLogNumber == was.prevLogNumber
    ensures was.logged.nextFile == Some(now.nextFileNumber - 1) && NumbersBelow(now.current, now.nextFileNumber - 1)
    ensures was.logged.lastSequence == Some(now.lastSequence) && now.compactPointer == AllPointed(was.logged.edits)
  {
    now := new VersionSet(was.name);
    status := now.Recover(was.descriptorLog.value, reuse);
  }

  // ---- what closing keeps ----

  /** What happens to a version set; an edit is logged without a fault. */
  datatype Change =
    | TakeNumber
    | MarkUsed(number: Word64)
    | SetLast(sequence: Word64)
    | MovePointer(level: nat, key: Bytes)
    | LogEdit(e: Edit)

  ghost predicate May(h: Held, c: Change) {
    match c
    case TakeNumber => h.now.next + 1 < MAX_WORD64
    case MarkUsed(number) => number + 1 < MAX_WORD64
    case SetLast(sequence) => h.now.last <= sequence
    case MovePointer(level, key) => level < |h.now.pointers| && ShortSlice(key)
    case LogEdit(e) =>
      && Encodable(e) && e.comparator == None && NumbersBelow(AddedPairs(e), h.now.next)
      && (e.logNumber.Some? ==> h.now.log <= e.logNumber.value < h.now.next)
  }

  /** Only a logged edit changes what the manifest has: then all numbers and files of now, and
      of the pointers those the edit names. */
  ghost function Changed(h: Held, c: Change): Held
    requires May(h, c)
  {
    match c
    case TakeNumber => h.(now := h.now.(next := h.now.next + 1))
    case MarkUsed(number) => h.(now := h.now.(next := if h.now.next <= number then number + 1 else h.now.next))
    case SetLast(sequence) => h.(now := h.now.(last := sequence))
    case MovePointer(level, key) => h.(now := h.now.(pointers := h.now.pointers[level := Some(key)]))
    case LogEdit(e) =>
      var f := Filled(e, h.now.log, h.now.prev, h.now.next, h.now.last);
      var now := Facts(f.logNumber.value, f.prevLogNumber.value, h.now.next, h.now.last,
                       Pointed(h.now.pointers, e.compactPointers), Next(h.now.files, e));
      Held(now, Some(if h.saved.Some? then now.(pointers := Pointed(h.saved.value.pointers, e.compactPointers))
                     else now))
  }

  ghost predicate MayAll(h: Held, cs: seq<Change>)
    decreases |cs|
  {
    cs != [] ==> May(h, cs[0]) && MayAll(Changed(h, cs[0]), cs[1..])
  }

  ghost function Played(h: Held, cs: seq<Change>): Held
    requires MayAll(h, cs)
    decreases |cs|
  {
    if cs == [] then h else Played(Changed(h, cs[0]), cs[1..])
  }

  method ApplyChange(v: VersionSet, c: Change, files: seq<(Word, FileMeta)>)
    requires v.Valid() && May(v.Holds(), c)
    requires v.descriptorLog == None ==> (set n | n in files) == v.current
    modifies v
    ensures v.Valid() && v.Holds() == Changed(old(v.Holds()), c)
    ensures v.descriptorLog == None ==> old(v.descriptorLog) == None && v.current == old(v.current)
  {
    hide Encodable;
    hide Next;
    hide Pointed;
    hide AddedPairs;
    hide NumbersBelow;
    hide ShortSlice;
    hide Replays;
    hide AllPointed;
    match c {
      case TakeNumber => var n := v.NewFileNumber();
      case MarkUsed(number) => v.MarkFileNumberUsed(number);
      case SetLast(sequence) => v.SetLastSequence(sequence);
      case MovePointer(level, key) => v.SetCompactPointer(level, key);
      case LogEdit(e) =>
        var edit := new VersionEdit();
        edit.logNumber, edit.prevLogNumber, edit.nextFileNumber, edit.lastSequence :=
            e.logNumber, e.prevLogNumber, e.nextFile, e.lastSequence;
        edit.compactPointers, edit.deletedFiles, edit.newFiles := e.compactPointers, e.deleted, e.added;
        assert edit.View() == e;
        SameFiles(v.current, e, Filled(e, v.logNumber, v.prevLogNumber, v.nextFileNumber, v.lastSequence));
        var ok := v.LogAndApply(edit, files, NoFault);
    }
  }

  /** Whatever is done to a new version set before it is closed: reopening gives what it was
      after the last logged edit, but for pointers no edit has named, and a new file number. */
  method RunAndReopen(name: Bytes, cs: seq<Change>, reuse: bool) returns (now: VersionSet, status: Status)
    requires ShortSlice(name) && MayAll(NEW, cs) && Played(NEW, cs).saved.Some?
             && Played(NEW, cs).now.next < MAX_WORD64 - 1
    ensures status == Fine && now.Valid()
    ensures var saved := Played(NEW, cs).saved.value;
            now.Holds().now == saved.(next := now.nextFileNumber) && now.nextFileNumber == saved.next + 1
  {
    hide Changed;
    hide May;
    var v := new VersionSet(name);
    for i := 0 to |cs|
      invariant v.Valid() && v.name == name && MayAll(v.Holds(), cs[i..])
                && Played(v.Holds(), cs[i..]) == Played(NEW, cs)
      invariant v.descriptorLog == None ==> v.current == {}
    {
      assert cs[i..][0] == cs[i] && cs[i..][1..] == cs[i + 1..];
      ApplyChange(v, cs[i], []);
    }
    now, status := Reopen(v, reuse);
  }
}
