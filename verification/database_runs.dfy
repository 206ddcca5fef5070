/** Every run of the database: structure is kept by every step, and reads agree
    with the flat history exactly as long as no compaction uncovers a deleted value. */
module DatabaseRuns {
  import opened InternalKeys
  import opened SnapshotReads
  import opened Versions
  import opened CompactionInputs
  import opened CompactionRules
  import opened CompactionLoop
  import opened VersionBuilder
  import opened VersionSteps
  import opened Database

  // ---- structure ----

  lemma OutputsAreFiles(levels: seq<seq<File>>, c: Compaction, outs: seq<File>, floor: nat)
    requires SearchableLevels(levels) && OutputsOf(levels, c, outs, floor)
    ensures ValidFiles(Files(outs)) && Disjoint(Files(outs))
    ensures EntriesOf(Files(outs)) == Survivors(InputEntries(c), floor, Base(levels, c.level))
  {
    CutFiles(outs);
    CutEntries(outs);
    forall f, g | f in Files(outs) && g in Files(outs) && f != g ensures Apart(f, g) {
      var i :| 0 <= i < |outs| && outs[i] == f;
      var j :| 0 <= j < |outs| && outs[j] == g;
      assert i < j || j < i;
    }
  }

  lemma OutputsAreFresh(levels: seq<seq<File>>, c: Compaction, outs: seq<File>, next: nat)
    requires NumberedApart(levels, outs, next)
    ensures FreshOutputs(levels, c, Files(outs))
    ensures forall o :: o in Files(outs) ==> o.number < next
  {
  }

  /** Replacing files, seen from the layers. */
  lemma ReplacedLayers(db: Db, c: Compaction, outs: set<File>, db': Db)
    requires Layered(db) && c.level + 1 < NUM_LEVELS && Compacted(db.levels, c, outs, db'.levels)
    requires FreshOutputs(db.levels, c, outs) && db' == db.(levels := db'.levels, nextFile := db'.nextFile)
    requires ValidFiles(outs) && Disjoint(outs) && EntriesOf(outs) <= InputEntries(c) && LeftApart(db.levels, c, outs)
    ensures Layered(db') && Stored(db') == Untouched(db, c) + EntriesOf(outs)
    ensures Stored(db) == Untouched(db, c) + InputEntries(c) && Stored(db') <= Stored(db)
  {
    assert NumbersUnique(db.levels);
    CompactedNumbers(db.levels, c, outs, db'.levels);
    ReplacedStored(db, c, outs, db'.levels);
    ReplaceKeepsLayers(db, c, outs, db'.levels);
    SameLayers(db.(levels := db'.levels), db');
  }

  lemma ReplaceKeepsStructure(w: World, c: Compaction, outs: set<File>, w': World)
    requires Structure(w) && c.level + 1 < NUM_LEVELS && Compacted(w.db.levels, c, outs, w'.db.levels)
    requires FreshOutputs(w.db.levels, c, outs) && w.db.nextFile <= w'.db.nextFile
    requires forall o :: o in outs ==> o.number < w'.db.nextFile
    requires w' == World(w.db.(levels := w'.db.levels, nextFile := w'.db.nextFile), w.history, w'.floor)
    requires w'.floor <= w.db.lastSequence && Ordered(w.db.snapshots, w'.floor, w.db.lastSequence)
    requires ValidFiles(outs) && Disjoint(outs) && EntriesOf(outs) <= InputEntries(c) && LeftApart(w.db.levels, c, outs)
    ensures Structure(w') && Stored(w'.db) == Untouched(w.db, c) + EntriesOf(outs)
    ensures Stored(w.db) == Untouched(w.db, c) + InputEntries(c)
  {
    ReplacedLayers(w.db, c, outs, w'.db);
    assert NumbersBelow(w.db.levels, w'.db.nextFile);
    CompactedBelow(w.db.levels, c, outs, w'.db.levels, w'.db.nextFile);
    assert Recorded(w');
  }

  lemma OldestIsSmallest(db: Db, floor: nat)
    requires floor <= db.lastSequence && Ordered(db.snapshots, floor, db.lastSequence)
    ensures floor <= SmallestSnapshot(db) <= db.lastSequence
    ensures forall low: nat :: low <= SmallestSnapshot(db) ==> Ordered(db.snapshots, low, db.lastSequence)
  {
  }

  /** What installing outputs does to the files. */
  lemma InstalledFiles(w: World, c: Compaction, outs: seq<File>, floor: nat, w': World)
    requires Structure(w) && InstallCompaction(w, c, outs, floor, w')
    ensures Compacted(w.db.levels, c, Files(outs), w'.db.levels) && FreshOutputs(w.db.levels, c, Files(outs))
    ensures ValidFiles(Files(outs)) && Disjoint(Files(outs))
    ensures EntriesOf(Files(outs)) == Survivors(InputEntries(c), floor, Base(w.db.levels, c.level))
  {
    assert NumbersUnique(w.db.levels);
    OutputsAreFiles(w.db.levels, c, outs, floor);
    EditCompacts(w.db.levels, c, outs, w'.db.levels, w'.db.nextFile);
    OutputsAreFresh(w.db.levels, c, outs, w'.db.nextFile);
  }

  lemma InstalledStored(w: World, c: Compaction, outs: seq<File>, floor: nat, w': World)
    requires Structure(w) && InstallCompaction(w, c, outs, floor, w')
    ensures Stored(w'.db) == Untouched(w.db, c) + Survivors(InputEntries(c), floor, Base(w.db.levels, c.level))
    ensures Stored(w.db) == Untouched(w.db, c) + InputEntries(c)
  {
    hide Compacted;
    hide OutputsOf;
    hide Edited;
    hide HeldInputs;
    InstalledFiles(w, c, outs, floor, w');
    ReplacedStored(w.db, c, Files(outs), w'.db.levels);
  }

  lemma InstallKeepsStructure(w: World, c: Compaction, outs: seq<File>, floor: nat, w': World)
    requires Structure(w) && InstallCompaction(w, c, outs, floor, w')
    requires ValidFiles(Files(outs)) && LeftApart(w.db.levels, c, Files(outs))
    ensures Structure(w')
  {
    hide Compacted;
    hide OutputsOf;
    hide Edited;
    hide HeldInputs;
    hide LeftApart;
    InstalledFiles(w, c, outs, floor, w');
    OldestIsSmallest(w.db, w.floor);
    ReplaceKeepsStructure(w, c, Files(outs), w');
  }

  lemma LevelsOf(w: World)
    requires Structure(w)
    ensures SearchableLevels(w.db.levels)
  {
  }

  lemma OutputsAreNew(w: World, c: Compaction, outs: seq<File>, floor: nat, w': World)
    requires SearchableLevels(w.db.levels) && InstallCompaction(w, c, outs, floor, w')
    ensures Files(outs) !! Files(w.db.levels[c.level + 1])
  {
  }

  /** Installing keeps the structure exactly when no output lies around a file that is
      left in the output level; and if one does, the level is out of order. */
  lemma InstallStructureIff(w: World, c: Compaction, outs: seq<File>, floor: nat, w': World)
    requires Structure(w) && InstallCompaction(w, c, outs, floor, w')
    ensures ValidFiles(Files(outs))
    ensures Structure(w') <==> !Encloses(w.db.levels, c, Files(outs))
    ensures SearchableLevels(w'.db.levels) <==> Structure(w')
  {
    hide Structure;
    hide OutputsOf;
    hide Edited;
    hide LeftApart;
    hide Encloses;
    hide SearchableLevels;
    hide Compacted;
    InstalledFiles(w, c, outs, floor, w');
    LevelsOf(w);
    ApartIffNoneEnclosed(w.db.levels, c, Files(outs));
    if LeftApart(w.db.levels, c, Files(outs)) { InstallKeepsStructure(w, c, outs, floor, w'); }
    OutputsAreNew(w, c, outs, floor, w');
    if SearchableLevels(w'.db.levels) { OverlapsAfter(w.db.levels, c, Files(outs), w'.db.levels); }
    if Structure(w') { LevelsOf(w'); }
  }

  lemma CompactKeepsStructure(w: World, c: Compaction, outs: seq<File>, floor: nat, w': World)
    requires Structure(w) && CompactStep(w, c, outs, floor, w')
    ensures Structure(w')
  {
    hide Structure;
    hide OutputsOf;
    hide Edited;
    hide ClosedInputs;
    hide LeftApart;
    LevelsOf(w);
    InstalledFiles(w, c, outs, floor, w');
    ClosedLeavesApart(w.db.levels, c, Files(outs));
    InstallKeepsStructure(w, c, outs, floor, w');
  }

  lemma SameLayers(a: Db, b: Db)
    requires Layered(a) && b.mem == a.mem && b.imm == a.imm && b.levels == a.levels
    ensures Layered(b) && Stored(b) == Stored(a)
  {
  }

  lemma MoveKeepsStructure(w: World, c: Compaction, w': World)
    requires Structure(w) && MoveStep(w, c, w')
    ensures Structure(w') && Stored(w'.db) == Stored(w.db)
  {
    hide Layered;
    hide Recorded;
    hide Compacted;
    hide ClosedInputs;
    hide Edited;
    hide EntriesOf;
    hide Disjoint;
    var f := c.inputs0[0];
    MovedFiles(w, c, w');
    MovedFile(w.db.levels, c, w.db.nextFile);
    LevelsOf(w);
    ClosedLeavesApart(w.db.levels, c, {f});
    ReplaceKeepsStructure(w, c, {f}, w');
  }

  lemma MovedFiles(w: World, c: Compaction, w': World)
    requires Structure(w) && MoveStep(w, c, w')
    ensures Compacted(w.db.levels, c, {c.inputs0[0]}, w'.db.levels) && FreshOutputs(w.db.levels, c, {c.inputs0[0]})
  {
    assert NumbersUnique(w.db.levels);
    MoveCompacts(w.db.levels, c, w'.db.levels);
  }

  lemma MovedFile(levels: seq<seq<File>>, c: Compaction, next: nat)
    requires ClosedInputs(levels, c) && |c.inputs0| == 1 && c.inputs1 == [] && NumbersBelow(levels, next)
    ensures ValidFiles({c.inputs0[0]}) && Disjoint({c.inputs0[0]}) && InputEntries(c) == EntriesOf({c.inputs0[0]})
            && c.inputs0[0].number < next
  {
    var f := c.inputs0[0];
    assert f in Files(c.inputs0) && Files(c.inputs0) == {f} && Files(c.inputs1) == {};
    assert f in Files(levels[c.level]);
  }

  /** Every step keeps the structure, also a compaction that loses a deletion. */
  lemma StepKeepsStructure(w: World, a: Action, w': World)
    requires Structure(w) && Step(w, a, w')
    ensures Structure(w')
  {
    hide ClosedInputs;
    hide Layered;
    hide InstallCompaction;
    hide Stored;
    match a
    case Write(batch) => WriteKeepsStructure(w, batch, w');
    case SwitchMemTable => SwitchKeepsStructure(w, w');
    case FlushMemTable(level, size) => FlushKeepsStructure(w, level, size, w');
    case TrivialMove(c) => MoveKeepsStructure(w, c, w');
    case Compact(c, outs, floor) => CompactKeepsStructure(w, c, outs, floor, w');
    case GetSnapshot => SameLayers(w.db, w'.db);
    case ReleaseSnapshot(i) => SameLayers(w.db, w'.db);
    case NewFileNumber => SameLayers(w.db, w'.db);
  }

  // ---- reads ----

  lemma NothingNewVisible(es: set<Entry>, added: set<Entry>, k: UserKey, s: nat)
    requires DistinctSequences(es + added) && forall e :: e in added ==> !Visible(e, k, s)
    ensures ReadAt(es + added, k, s) == ReadAt(es, k, s)
  {
    var n := ReadCases(es, k, s);
    var m := ReadCases(es + added, k, s);
    if n.Some? { assert Newest(es + added, k, s, n.value); ReadNewest(es + added, k, s, n.value); }
  }

  lemma NewWinsRead(es: set<Entry>, added: set<Entry>, k: UserKey, s: nat, e: Entry)
    requires DistinctSequences(es + added) && Newer(added, es) && Newest(added, k, s, e)
    ensures ReadAt(es + added, k, s) == ValueOf(e)
  {
    assert Newest(es + added, k, s, e);
    ReadNewest(es + added, k, s, e);
  }

  /** Newer entries added on both sides do not disturb agreement. */
  lemma WriteKeepsReads(history: set<Entry>, stored: set<Entry>, added: set<Entry>, floor: nat)
    requires SameReads(history, stored, floor) && stored <= history
    requires DistinctSequences(history + added) && Newer(added, history)
    ensures SameReads(history + added, stored + added, floor)
  {
    forall k, s: nat | s >= floor ensures ReadAt(stored + added, k, s) == ReadAt(history + added, k, s) {
      var n := ReadCases(added, k, s);
      if n.Some? {
        NewWinsRead(history, added, k, s, n.value);
        NewWinsRead(stored, added, k, s, n.value);
      } else {
        NothingNewVisible(history, added, k, s);
        NothingNewVisible(stored, added, k, s);
      }
    }
  }

  lemma SameReadsShift(history: set<Entry>, before: set<Entry>, after: set<Entry>, floor: nat, floor': nat)
    requires SameReads(history, before, floor) && floor <= floor'
    ensures SameReads(history, after, floor') <==> SameReads(before, after, floor')
  {
    if SameReads(history, after, floor') {
      forall k, s: nat | s >= floor' ensures ReadAt(after, k, s) == ReadAt(before, k, s) {
        assert ReadAt(before, k, s) == ReadAt(history, k, s);
      }
    }
    if SameReads(before, after, floor') {
      forall k, s: nat | s >= floor' ensures ReadAt(after, k, s) == ReadAt(history, k, s) {
        assert ReadAt(before, k, s) == ReadAt(history, k, s);
      }
    }
  }

  /** The exact condition under which a step keeps reads: a compaction must not drop
      a tombstone that covers a value left outside its inputs. */
  ghost predicate SafeAction(w: World, a: Action)
    requires SearchableLevels(w.db.levels)
  {
    a.Compact? ==> ResurrectFree(Untouched(w.db, a.c), InputEntries(a.c), a.floor, Base(w.db.levels, a.c.level))
  }

  lemma InstallReadsIff(w: World, c: Compaction, outs: seq<File>, floor: nat, w': World)
    requires Structure(w) && ReadsAgree(w) && InstallCompaction(w, c, outs, floor, w')
    ensures ReadsAgree(w') <==> SafeAction(w, Compact(c, outs, floor))
  {
    InstalledStored(w, c, outs, floor, w');
    CompactionKeepsReadsIff(Untouched(w.db, c), InputEntries(c), floor, Base(w.db.levels, c.level));
    SameReadsShift(w.history, Stored(w.db), Stored(w'.db), w.floor, floor);
  }

  lemma StepReadsIff(w: World, a: Action, w': World)
    requires Structure(w) && ReadsAgree(w) && Step(w, a, w')
    ensures ReadsAgree(w') <==> SafeAction(w, a)
  {
    match a
    case Write(batch) =>
      WriteKeepsStructure(w, batch, w');
      BatchIsNewest(batch, w.db.lastSequence, w.history);
      WriteKeepsReads(w.history, Stored(w.db), BatchEntries(batch, w.db.lastSequence), w.floor);
    case SwitchMemTable => SwitchKeepsStructure(w, w');
    case FlushMemTable(level, size) => FlushKeepsStructure(w, level, size, w');
    case TrivialMove(c) => MoveKeepsStructure(w, c, w');
    case Compact(c, outs, floor) => InstallReadsIff(w, c, outs, floor, w');
    case GetSnapshot => SameLayers(w.db, w'.db);
    case ReleaseSnapshot(i) => SameLayers(w.db, w'.db);
    case NewFileNumber => SameLayers(w.db, w'.db);
  }

  // ---- runs ----

  ghost predicate Run(ws: seq<World>, acts: seq<Action>) {
    && |ws| == |acts| + 1 && InitWorld(ws[0])
    && forall i :: 0 <= i < |acts| ==> SearchableLevels(ws[i].db.levels) && Step(ws[i], acts[i], ws[i + 1])
  }

  lemma {:induction false} RunStructure(ws: seq<World>, acts: seq<Action>, n: nat)
    requires Run(ws, acts) && n <= |acts|
    ensures Structure(ws[n])
  {
    if n == 0 {
      InitStructure(ws[0]);
    } else {
      RunStructure(ws, acts, n - 1);
      StepKeepsStructure(ws[n - 1], acts[n - 1], ws[n]);
    }
  }

  lemma RunStepReads(ws: seq<World>, acts: seq<Action>, i: nat)
    requires Run(ws, acts) && i < |acts| && ReadsAgree(ws[i])
    ensures ReadsAgree(ws[i + 1]) <==> SafeAction(ws[i], acts[i])
  {
    RunStructure(ws, acts, i);
    StepReadsIff(ws[i], acts[i], ws[i + 1]);
  }

  lemma {:induction false} FirstFailure(agree: seq<bool>, safe: seq<bool>, n: nat)
    requires |agree| == |safe| + 1 && agree[0] && n <= |safe|
    requires forall i :: 0 <= i < |safe| && agree[i] ==> (agree[i + 1] <==> safe[i])
    ensures (forall i :: 0 <= i <= n ==> agree[i]) <==> (forall i :: 0 <= i < n ==> safe[i])
  {
    if n > 0 {
      FirstFailure(agree, safe, n - 1);
      var i := n - 1;
      assert agree[i] ==> (agree[i + 1] <==> safe[i]);
    }
  }

  /** All states of a run agree with the flat history exactly when all its actions were safe. */
  lemma RunReadsIff(ws: seq<World>, acts: seq<Action>)
    requires Run(ws, acts)
    ensures (forall i :: 0 <= i < |ws| ==> ReadsAgree(ws[i]))
            <==> (forall i :: 0 <= i < |acts| ==> SafeAction(ws[i], acts[i]))
  {
    var agree := seq(|ws|, i requires 0 <= i < |ws| => ReadsAgree(ws[i]));
    var safe := seq(|acts|, i requires 0 <= i < |acts|
                    && SearchableLevels(ws[i].db.levels) => SafeAction(ws[i], acts[i]));
    InitStructure(ws[0]);
    forall i | 0 <= i < |acts| && agree[i] ensures agree[i + 1] <==> safe[i] { RunStepReads(ws, acts, i); }
    FirstFailure(agree, safe, |acts|);
    assert forall i :: 0 <= i < |ws| ==> agree[i] == ReadsAgree(ws[i]);
    assert forall i :: 0 <= i < |acts| ==> safe[i] == SafeAction(ws[i], acts[i]);
  }
}
