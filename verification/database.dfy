/** The database as a state machine: memtable, immutable memtable, levels, live
    snapshots, and beside them the flat history of every write (db/db_impl.cc). */
module Database {
  import opened InternalKeys
  import opened Lists
  import opened SnapshotReads
  import opened Versions
  import opened CompactionInputs
  import opened CompactionRules
  import opened CompactionLoop
  import opened VersionBuilder
  import opened VersionSteps

  datatype Db = Db(mem: seq<Entry>, imm: Option<seq<Entry>>, levels: seq<seq<File>>,
                   lastSequence: nat, snapshots: seq<nat>, nextFile: nat)

  /** `history` is everything ever written; `floor` is the largest smallest_snapshot
      any compaction has used. */
  datatype World = World(db: Db, history: set<Entry>, floor: nat)

  type Batch = seq<(UserKey, Op)>

  datatype Action =
    | Write(batch: Batch)
    | SwitchMemTable
    | FlushMemTable(level: nat, size: nat)
    | TrivialMove(c: Compaction)
    | Compact(c: Compaction, outs: seq<File>, floor: nat)  // smallest_snapshot when its work began
    | GetSnapshot
    | ReleaseSnapshot(i: nat)
    | NewFileNumber

  ghost function ImmEntries(db: Db): set<Entry> {
    match db.imm case None => {} case Some(es) => Elements(es)
  }

  ghost function Stored(db: Db): set<Entry> { Elements(db.mem) + ImmEntries(db) + VersionEntries(db.levels) }

  ghost predicate InitWorld(w: World) {
    w == World(Db([], None, seq(NUM_LEVELS, _ => []), 0, [], 2), {}, 0)
  }

  // ---- invariants ----

  ghost predicate Ordered(snapshots: seq<nat>, low: nat, high: nat) {
    && (forall i :: 0 <= i < |snapshots| ==> low <= snapshots[i] <= high)
    && forall i, j :: 0 <= i < j < |snapshots| ==> snapshots[i] <= snapshots[j]
  }

  ghost predicate NumbersBelow(levels: seq<seq<File>>, n: nat) {
    forall l, f :: 0 <= l < |levels| && f in levels[l] ==> f.number < n
  }

  ghost predicate Layered(db: Db) {
    && Sorted(db.mem) && (db.imm.Some? ==> Sorted(db.imm.value))
    && ValidVersion(db.levels)
    && InLayers(Elements(db.mem), ImmEntries(db), VersionEntries(db.levels))
  }

  ghost predicate InLayers(mem: set<Entry>, imm: set<Entry>, version: set<Entry>) {
    Newer(mem, imm) && Newer(mem, version) && Newer(imm, version)
  }

  lemma LayersGrow(mem: set<Entry>, imm: set<Entry>, version: set<Entry>, added: set<Entry>)
    requires InLayers(mem, imm, version) && Newer(added, imm) && Newer(added, version)
    ensures InLayers(mem + added, imm, version)
  {
  }

  lemma LayersSink(mem: set<Entry>, imm: set<Entry>, version: set<Entry>)
    requires InLayers(mem, imm, version)
    ensures InLayers(mem, {}, version + imm)
  {
  }

  lemma LayersShrink(mem: set<Entry>, imm: set<Entry>, version: set<Entry>, version': set<Entry>)
    requires InLayers(mem, imm, version) && version' <= version
    ensures InLayers(mem, imm, version')
  {
  }

  ghost predicate Recorded(w: World) {
    && Stored(w.db) <= w.history && DistinctSequences(w.history)
    && (forall e :: e in w.history ==> e.sequence <= w.db.lastSequence)
    && w.db.lastSequence < MAX_SEQUENCE
  }

  /** Everything but the agreement of reads. */
  ghost predicate Structure(w: World) {
    && Layered(w.db) && Recorded(w)
    && NumbersBelow(w.db.levels, w.db.nextFile)
    && w.floor <= w.db.lastSequence && Ordered(w.db.snapshots, w.floor, w.db.lastSequence)
  }

  /** Every snapshot that can still be taken or held reads the flat history. */
  ghost predicate ReadsAgree(w: World) { SameReads(w.history, Stored(w.db), w.floor) }

  // ---- steps ----

  function BatchEntry(batch: Batch, last: nat, i: nat): Entry
    requires i < |batch|
  { Entry(batch[i].0, last + 1 + i, batch[i].1) }

  ghost function BatchEntries(batch: Batch, last: nat): set<Entry> {
    set i | 0 <= i < |batch| :: BatchEntry(batch, last, i)
  }

  /** snapshots_.oldest(), or the last sequence when there is none. */
  function SmallestSnapshot(db: Db): nat { if db.snapshots == [] then db.lastSequence else db.snapshots[0] }

  ghost predicate WriteStep(w: World, batch: Batch, w': World) {
    && w.db.lastSequence + |batch| < MAX_SEQUENCE
    && w' == World(w.db.(mem := w'.db.mem, lastSequence := w.db.lastSequence + |batch|),
                   w.history + BatchEntries(batch, w.db.lastSequence), w.floor)
    && Sorted(w'.db.mem)
    && Elements(w'.db.mem) == Elements(w.db.mem) + BatchEntries(batch, w.db.lastSequence)
  }

  ghost predicate SwitchStep(w: World, w': World) {
    w.db.imm.None? && w' == w.(db := w.db.(mem := [], imm := Some(w.db.mem), nextFile := w.db.nextFile + 1))
  }

  function FlushEdit(level: nat, f: File): VersionEdit { VersionEdit({}, [(level, f)]) }

  ghost predicate FlushStep(w: World, level: nat, size: nat, w': World)
    requires SearchableLevels(w.db.levels)
  {
    && w.db.imm.Some?
    && w' == w.(db := w.db.(imm := None, levels := w'.db.levels, nextFile := w.db.nextFile + 1))
    && if w.db.imm.value == [] then w'.db.levels == w.db.levels
       else var f := File(w.db.nextFile, size, w.db.imm.value);
         ValidFile(f) && LevelAllowed(w.db.levels, f, level) && level < NUM_LEVELS
         && Edited(w.db.levels, FlushEdit(level, f), w'.db.levels)
  }

  function MoveEdit(level: nat, f: File): VersionEdit { VersionEdit({(level, f.number)}, [(level + 1, f)]) }

  ghost predicate MoveStep(w: World, c: Compaction, w': World) {
    && c.level + 1 < NUM_LEVELS && ClosedInputs(w.db.levels, c) && |c.inputs0| == 1 && c.inputs1 == []
    && w' == w.(db := w.db.(levels := w'.db.levels))
    && Edited(w.db.levels, MoveEdit(c.level, c.inputs0[0]), w'.db.levels)
  }

  function CompactionEdit(c: Compaction, outs: seq<File>): VersionEdit {
    VersionEdit((set f | f in c.inputs0 :: (c.level, f.number)) + (set f | f in c.inputs1 :: (c.level + 1, f.number)),
                seq(|outs|, i requires 0 <= i < |outs| => (c.level + 1, outs[i])))
  }

  /** The outputs are cut from what the merge loop kept. */
  ghost predicate OutputsOf(levels: seq<seq<File>>, c: Compaction, outs: seq<File>, floor: nat)
    requires SearchableLevels(levels)
  {
    && (forall o :: o in outs ==> o.entries != [])
    && Sorted(Concat(EntriesList(outs)))
    && Elements(Concat(EntriesList(outs))) == Survivors(InputEntries(c), floor, Base(levels, c.level))
  }

  /** The outputs have numbers of their own, below `next`. */
  ghost predicate NumberedApart(levels: seq<seq<File>>, outs: seq<File>, next: nat) {
    && (forall i, j :: 0 <= i < j < |outs| ==> outs[i].number != outs[j].number)
    && (forall l, f, o :: 0 <= l < |levels| && f in levels[l] && o in outs ==> f.number != o.number)
    && forall o :: o in outs ==> o.number < next
  }

  /** Installing a compaction whose work began with this smallest_snapshot. */
  ghost predicate CompactStep(w: World, c: Compaction, outs: seq<File>, floor: nat, w': World)
    requires SearchableLevels(w.db.levels)
  {
    ClosedInputs(w.db.levels, c) && InstallCompaction(w, c, outs, floor, w')
  }

  /** The same with gaps in the inputs that something may have come into. */
  ghost predicate InstallCompaction(w: World, c: Compaction, outs: seq<File>, floor: nat, w': World)
    requires SearchableLevels(w.db.levels)
  {
    && c.level + 1 < NUM_LEVELS && HeldInputs(w.db.levels, c) && OutputsOf(w.db.levels, c, outs, floor)
    && w.floor <= floor <= SmallestSnapshot(w.db)
    && w.db.nextFile <= w'.db.nextFile && NumberedApart(w.db.levels, outs, w'.db.nextFile)
    && w' == World(w.db.(levels := w'.db.levels, nextFile := w'.db.nextFile), w.history, floor)
    && Edited(w.db.levels, CompactionEdit(c, outs), w'.db.levels)
  }

  ghost predicate Step(w: World, a: Action, w': World)
    requires SearchableLevels(w.db.levels)
  {
    match a
    case Write(batch) => WriteStep(w, batch, w')
    case SwitchMemTable => SwitchStep(w, w')
    case FlushMemTable(level, size) => FlushStep(w, level, size, w')
    case TrivialMove(c) => MoveStep(w, c, w')
    case Compact(c, outs, floor) => CompactStep(w, c, outs, floor, w')
    case GetSnapshot => w' == w.(db := w.db.(snapshots := w.db.snapshots + [w.db.lastSequence]))
    case NewFileNumber => w' == w.(db := w.db.(nextFile := w.db.nextFile + 1))
    case ReleaseSnapshot(i) =>
      i < |w.db.snapshots| && w' == w.(db := w.db.(snapshots := w.db.snapshots[..i] + w.db.snapshots[i + 1..]))
  }

  // ---- structure is kept by every step ----

  lemma InitStructure(w: World)
    requires InitWorld(w)
    ensures Structure(w) && ReadsAgree(w)
  {
    assert VersionEntries(w.db.levels) == {};
    assert Stored(w.db) == w.history;
  }

  lemma BatchIsNewest(batch: Batch, last: nat, written: set<Entry>)
    requires forall e :: e in written ==> e.sequence <= last
    requires DistinctSequences(written)
    ensures forall e :: e in BatchEntries(batch, last) ==> last < e.sequence <= last + |batch|
    ensures Newer(BatchEntries(batch, last), written)
    ensures DistinctSequences(written + BatchEntries(batch, last))
  {
  }

  lemma WriteKeepsLayers(db: Db, added: set<Entry>, db': Db)
    requires Layered(db) && Sorted(db'.mem) && Elements(db'.mem) == Elements(db.mem) + added
    requires db' == db.(mem := db'.mem, lastSequence := db'.lastSequence)
    requires Newer(added, ImmEntries(db)) && Newer(added, VersionEntries(db.levels))
    ensures Layered(db') && Stored(db') == Stored(db) + added
  {
    LayersGrow(Elements(db.mem), ImmEntries(db), VersionEntries(db.levels), added);
  }

  lemma WriteKeepsStructure(w: World, batch: Batch, w': World)
    requires Structure(w) && WriteStep(w, batch, w')
    ensures Structure(w')
    ensures Stored(w'.db) == Stored(w.db) + BatchEntries(batch, w.db.lastSequence)
  {
    BatchIsNewest(batch, w.db.lastSequence, w.history);
    WriteKeepsLayers(w.db, BatchEntries(batch, w.db.lastSequence), w'.db);
    assert Recorded(w') && Layered(w'.db);
  }

  lemma SwitchKeepsStructure(w: World, w': World)
    requires Structure(w) && SwitchStep(w, w')
    ensures Structure(w') && Stored(w'.db) == Stored(w.db)
  {
  }

  lemma FlushEditAtLevel(levels: seq<seq<File>>, f: File, level: nat, l: nat)
    requires l < |levels|
    ensures NextFiles(Files(levels[l]), FlushEdit(level, f), l) == Files(levels[l]) + (if l == level then {f} else {})
  {
    assert AddedAt([(level, f)], l) == if l == level then {f} else {};
    assert DeletedAt(FlushEdit(level, f), l) == {};
  }

  lemma FlushEditFiles(levels: seq<seq<File>>, f: File, level: nat, levels': seq<seq<File>>)
    requires level < NUM_LEVELS && Edited(levels, FlushEdit(level, f), levels')
    ensures Flushed(levels, f, level, levels')
  {
    forall l | 0 <= l < NUM_LEVELS
      ensures NextFiles(Files(levels[l]), FlushEdit(level, f), l) == Files(levels[l]) + (if l == level then {f} else {})
    { FlushEditAtLevel(levels, f, level, l); }
  }

  lemma ImmIntoLevels(db: Db, levels': seq<seq<File>>)
    requires Layered(db) && ValidVersion(levels')
    requires VersionEntries(levels') == VersionEntries(db.levels) + ImmEntries(db)
    ensures Layered(db.(imm := None, levels := levels'))
    ensures Stored(db.(imm := None, levels := levels')) == Stored(db)
  {
    var db' := db.(imm := None, levels := levels');
    var m, i, v := Elements(db.mem), ImmEntries(db), VersionEntries(db.levels);
    LayersSink(m, i, v);
    assert Stored(db') == m + (v + i);
  }

  lemma FlushKeepsLayers(db: Db, level: nat, f: File, levels': seq<seq<File>>, history: set<Entry>)
    requires Layered(db) && db.imm == Some(f.entries) && f.entries != [] && NumbersBelow(db.levels, f.number)
    requires LevelAllowed(db.levels, f, level) && Flushed(db.levels, f, level, levels')
    requires Stored(db) <= history && DistinctSequences(history)
    ensures Layered(db.(imm := None, levels := levels'))
    ensures Stored(db.(imm := None, levels := levels')) == Stored(db)
  {
    assert VersionEntries(db.levels) + Elements(f.entries) <= history;
    FlushKeepsVersion(db.levels, f, level, levels');
    ImmIntoLevels(db, levels');
  }

  lemma FlushKeepsStructure(w: World, level: nat, size: nat, w': World)
    requires Structure(w) && FlushStep(w, level, size, w')
    ensures Structure(w') && Stored(w'.db) == Stored(w.db)
  {
    if w.db.imm.value != [] {
      var f := File(w.db.nextFile, size, w.db.imm.value);
      FlushEditFiles(w.db.levels, f, level, w'.db.levels);
      FlushKeepsLayers(w.db, level, f, w'.db.levels, w.history);
      FlushedBelow(w.db.levels, f, level, w'.db.levels);
      assert w'.db == w.db.(imm := None, levels := w'.db.levels).(nextFile := w.db.nextFile + 1);
      assert Layered(w'.db) && Stored(w'.db) == Stored(w.db);
    }
  }

  lemma FlushedBelow(levels: seq<seq<File>>, f: File, level: nat, levels': seq<seq<File>>)
    requires Flushed(levels, f, level, levels') && NumbersBelow(levels, f.number)
    ensures NumbersBelow(levels', f.number + 1)
  {
    forall l, g | 0 <= l < NUM_LEVELS && g in levels'[l] ensures g.number < f.number + 1 {
      assert g in Files(levels'[l]);
    }
  }

  // ---- compaction and trivial move: the levels ----

  lemma CompactionEditAt(c: Compaction, outs: seq<File>, l: nat)
    ensures AddedAt(CompactionEdit(c, outs).added, l) == if l == c.level + 1 then Files(outs) else {}
    ensures DeletedAt(CompactionEdit(c, outs), l)
            == if l == c.level then Numbers(Files(c.inputs0)) else if l == c.level + 1 then Numbers(Files(c.inputs1))
                  else {}
  {
    var edit := CompactionEdit(c, outs);
    forall f | f in outs ensures (c.level + 1, f) in edit.added {
      var i :| 0 <= i < |outs| && outs[i] == f;
      assert edit.added[i] == (c.level + 1, f);
    }
    forall n ensures n in DeletedAt(edit, c.level) <==> n in Numbers(Files(c.inputs0)) {
      if n in Numbers(Files(c.inputs0)) {
        var f :| f in Files(c.inputs0) && f.number == n;
        assert (c.level, n) in edit.deleted;
      }
    }
    forall n ensures n in DeletedAt(edit, c.level + 1) <==> n in Numbers(Files(c.inputs1)) {
      if n in Numbers(Files(c.inputs1)) {
        var f :| f in Files(c.inputs1) && f.number == n;
        assert (c.level + 1, n) in edit.deleted;
      }
    }
  }

  /** Deleting by number removes exactly the files meant, when numbers are unique. */
  lemma DeleteByNumber(level: set<File>, taken: set<File>, outs: set<File>)
    requires taken <= level && forall f, g :: f in level && g in level && f.number == g.number ==> f == g
    requires forall f, g :: f in level && g in outs ==> f.number != g.number
    ensures (set f | f in level + outs && f.number !in Numbers(taken) - Numbers(outs)) == level - taken + outs
  {
    forall f | f in level + outs ensures f.number !in Numbers(taken) - Numbers(outs) <==> f in level - taken + outs {
      if f in outs { assert f.number in Numbers(outs); }
      else { assert f.number !in Numbers(outs); assert f in taken ==> f.number in Numbers(taken); }
    }
  }

  lemma LevelNumbers(levels: seq<seq<File>>, l: nat, taken: set<File>)
    requires NumbersUnique(levels) && l < |levels| && taken <= Files(levels[l])
    ensures forall f, g :: f in Files(levels[l]) && g in Files(levels[l]) && f.number == g.number ==> f == g
  {
  }

  lemma EditAtLevel(levels: seq<seq<File>>, c: Compaction, outs: seq<File>, next: nat, l: nat)
    requires |levels| == NUM_LEVELS && NumbersUnique(levels) && NumberedApart(levels, outs, next)
    requires c.level + 1 < NUM_LEVELS && l < NUM_LEVELS
    requires Files(c.inputs0) <= Files(levels[c.level]) && Files(c.inputs1) <= Files(levels[c.level + 1])
    ensures NextFiles(Files(levels[l]), CompactionEdit(c, outs), l)
            == if l == c.level then Files(levels[l]) - Files(c.inputs0)
               else if l == c.level + 1 then Files(levels[l]) - Files(c.inputs1) + Files(outs)
               else Files(levels[l])
  {
    CompactionEditAt(c, outs, l);
    if l == c.level {
      LevelNumbers(levels, l, Files(c.inputs0));
      DeleteByNumber(Files(levels[l]), Files(c.inputs0), {});
    } else if l == c.level + 1 {
      LevelNumbers(levels, l, Files(c.inputs1));
      DeleteByNumber(Files(levels[l]), Files(c.inputs1), Files(outs));
    }
  }

  lemma EditCompacts(levels: seq<seq<File>>, c: Compaction, outs: seq<File>, levels': seq<seq<File>>, next: nat)
    requires NumbersUnique(levels) && c.level + 1 < NUM_LEVELS && HeldInputs(levels, c)
             && NumberedApart(levels, outs, next)
    requires Edited(levels, CompactionEdit(c, outs), levels')
    ensures Compacted(levels, c, Files(outs), levels')
  {
    InputsWithin(levels, c);
    forall l | 0 <= l < NUM_LEVELS
      ensures SortedFiles(levels'[l])
      ensures Files(levels'[l])
              == if l == c.level then Files(levels[l]) - Files(c.inputs0)
                 else if l == c.level + 1 then Files(levels[l]) - Files(c.inputs1) + Files(outs)
                 else Files(levels[l])
    { EditAtLevel(levels, c, outs, next, l); }
  }

  /** A file after the step was on its level before, or is an output. */
  lemma FileOrigin(levels: seq<seq<File>>, c: Compaction, outs: set<File>, levels': seq<seq<File>>, l: nat, f: File)
    requires Compacted(levels, c, outs, levels') && l < NUM_LEVELS && f in levels'[l]
    ensures f in levels[l] || (l == c.level + 1 && f in outs)
    ensures l == c.level ==> f !in c.inputs0
  {
    assert f in Files(levels'[l]);
  }

  ghost predicate FreshOutputs(levels: seq<seq<File>>, c: Compaction, outs: set<File>) {
    && (forall f, g :: f in outs && g in outs && f.number == g.number ==> f == g)
    && forall l, f, g :: 0 <= l < |levels| && f in levels[l] && g in outs && f.number == g.number ==>
         l == c.level && f in c.inputs0 && f == g
  }

  lemma NumbersApart(levels: seq<seq<File>>, c: Compaction, outs: set<File>, levels': seq<seq<File>>, l: nat, m: nat,
                     f: File, g: File)
    requires NumbersUnique(levels) && Compacted(levels, c, outs, levels') && FreshOutputs(levels, c, outs)
    requires l <= m < NUM_LEVELS && f in levels'[l] && g in levels'[m] && f.number == g.number
    ensures l == m && f == g
  {
    FileOrigin(levels, c, outs, levels', l, f);
    FileOrigin(levels, c, outs, levels', m, g);
  }

  lemma CompactedNumbers(levels: seq<seq<File>>, c: Compaction, outs: set<File>, levels': seq<seq<File>>)
    requires NumbersUnique(levels) && Compacted(levels, c, outs, levels') && FreshOutputs(levels, c, outs)
    ensures NumbersUnique(levels')
  {
    forall l, m, f, g | 0 <= l <= m < NUM_LEVELS && f in levels'[l] && g in levels'[m] && f.number == g.number
      ensures l == m && f == g
    { NumbersApart(levels, c, outs, levels', l, m, f, g); }
  }

  lemma CompactedBelow(levels: seq<seq<File>>, c: Compaction, outs: set<File>, levels': seq<seq<File>>, n: nat)
    requires Compacted(levels, c, outs, levels') && NumbersBelow(levels, n) && forall o :: o in outs ==> o.number < n
    ensures NumbersBelow(levels', n)
  {
    forall l, f | 0 <= l < NUM_LEVELS && f in levels'[l]
      ensures f.number < n
    { FileOrigin(levels, c, outs, levels', l, f); }
  }

  lemma MoveEditAtLevel(levels: seq<seq<File>>, level: nat, f: File, l: nat)
    requires |levels| == NUM_LEVELS && NumbersUnique(levels) && level + 1 < NUM_LEVELS && l < NUM_LEVELS
    requires f in Files(levels[level])
    ensures NextFiles(Files(levels[l]), MoveEdit(level, f), l)
            == if l == level then Files(levels[l]) - {f} else if l == level + 1 then Files(levels[l]) + {f}
                  else Files(levels[l])
  {
    var edit := MoveEdit(level, f);
    assert AddedAt(edit.added, l) == if l == level + 1 then {f} else {};
    assert (level, f.number) in edit.deleted;
    assert DeletedAt(edit, l) == if l == level then {f.number} else {};
    LevelNumbers(levels, l, {});
  }

  lemma MoveCompacts(levels: seq<seq<File>>, c: Compaction, levels': seq<seq<File>>)
    requires NumbersUnique(levels) && c.level + 1 < NUM_LEVELS && ClosedInputs(levels, c)
    requires |c.inputs0| == 1 && c.inputs1 == []
    requires Edited(levels, MoveEdit(c.level, c.inputs0[0]), levels')
    ensures Compacted(levels, c, {c.inputs0[0]}, levels') && FreshOutputs(levels, c, {c.inputs0[0]})
  {
    hide NextFiles;
    hide HeldInputs;
    hide ClosedInputs;
    var f := c.inputs0[0];
    ClosedIsHeld(levels, c);
    InputsWithin(levels, c);
    assert f in Files(c.inputs0) && f in Files(levels[c.level]) && Files(c.inputs0) == {f};
    forall l | 0 <= l < NUM_LEVELS
      ensures SortedFiles(levels'[l])
      ensures Files(levels'[l])
              == if l == c.level then Files(levels[l]) - {f} else if l == c.level + 1 then Files(levels[l]) + {f}
                    else Files(levels[l])
    { MoveEditAtLevel(levels, c.level, f, l); }
  }

  // ---- compaction and trivial move: the entries ----

  /** Everything stored outside the inputs. */
  ghost function Untouched(db: Db, c: Compaction): set<Entry> { Stored(db) - InputEntries(c) }

  lemma FilesShareNothing(f: File, g: File, e: Entry)
    requires ValidFile(f) && ValidFile(g) && Apart(f, g) && e in f.entries
    ensures e !in g.entries
  {
    FileBounds(f, e);
    forall d | d in g.entries ensures d != e { FileBounds(g, d); }
  }

  /** An entry is stored in one file of the version only. */
  lemma OnePlace(levels: seq<seq<File>>, l: nat, f: File, m: nat, g: File, e: Entry)
    requires ValidVersion(levels) && l <= m < NUM_LEVELS && f in levels[l] && g in levels[m]
    requires e in f.entries && e in g.entries
    ensures l == m && f == g
  {
    assert f in Files(levels[l]) && g in Files(levels[m]);
    assert e in EntriesOf(Files(levels[l])) && e in EntriesOf(Files(levels[m]));
    if l < m {
      NewerPair(levels, l, m, e, e);
    } else if f != g {
      if l == 0 { Level0Place(levels, f, g, e); }
      else { LevelFacts(levels, l); FilesShareNothing(f, g, e); }
    }
  }

  lemma Level0Place(levels: seq<seq<File>>, f: File, g: File, e: Entry)
    requires ValidVersion(levels) && f in levels[0] && g in levels[0] && e in f.entries && e in g.entries
    ensures f == g
  {
    assert f in Files(levels[0]) && g in Files(levels[0]) && NewerByNumber(Files(levels[0])) && NumbersUnique(levels);
    assert e in Elements(f.entries) && e in Elements(g.entries);
    assert f.number > g.number ==> Newer(Elements(f.entries), Elements(g.entries));
    assert g.number > f.number ==> Newer(Elements(g.entries), Elements(f.entries));
  }

  lemma SamePlace(levels: seq<seq<File>>, l: nat, f: File, m: nat, g: File, e: Entry)
    requires ValidVersion(levels) && l < NUM_LEVELS && m < NUM_LEVELS && f in levels[l] && g in levels[m]
    requires e in f.entries && e in g.entries
    ensures l == m && f == g
  {
    if l <= m { OnePlace(levels, l, f, m, g, e); } else { OnePlace(levels, m, g, l, f, e); }
  }

  lemma NotAmong(levels: seq<seq<File>>, l: nat, g: File, m: nat, fs: set<File>, e: Entry)
    requires ValidVersion(levels) && l < NUM_LEVELS && m < NUM_LEVELS && g in levels[l] && e in g.entries
    requires fs <= Files(levels[m]) && (l == m ==> g !in fs)
    ensures e !in EntriesOf(fs)
  {
    if f :| f in fs && e in f.entries {
      assert f in Files(levels[m]);
      SamePlace(levels, l, g, m, f, e);
    }
  }

  /** A file that is not an input holds no input entry. */
  lemma LeftoverHoldsNoInput(levels: seq<seq<File>>, c: Compaction, l: nat, g: File, e: Entry)
    requires ValidVersion(levels) && l < NUM_LEVELS && g in levels[l] && e in g.entries && c.level + 1 < NUM_LEVELS
    requires Files(c.inputs0) <= Files(levels[c.level]) && Files(c.inputs1) <= Files(levels[c.level + 1])
    requires (l == c.level ==> g !in Files(c.inputs0)) && (l == c.level + 1 ==> g !in Files(c.inputs1))
    ensures e !in InputEntries(c)
  {
    NotAmong(levels, l, g, c.level, Files(c.inputs0), e);
    NotAmong(levels, l, g, c.level + 1, Files(c.inputs1), e);
  }

  lemma EntryAfter(levels: seq<seq<File>>, c: Compaction, outs: set<File>, levels': seq<seq<File>>, l: nat, e: Entry)
    requires ValidVersion(levels) && Compacted(levels, c, outs, levels') && l < NUM_LEVELS
    requires e in EntriesOf(Files(levels'[l]))
    ensures e in EntriesOf(outs) || (e in EntriesOf(Files(levels[l])) && e !in InputEntries(c))
  {
    var g :| g in Files(levels'[l]) && e in g.entries;
    if l == c.level + 1 && g in outs {
      assert e in EntriesOf(outs);
    } else {
      assert g in Files(levels[l]) && e in EntriesOf(Files(levels[l]));
      InputsWithin(levels, c);
      LeftoverHoldsNoInput(levels, c, l, g, e);
    }
  }

  lemma EntryStays(levels: seq<seq<File>>, c: Compaction, outs: set<File>, levels': seq<seq<File>>, l: nat, e: Entry)
    requires Compacted(levels, c, outs, levels') && l < NUM_LEVELS
    requires e in EntriesOf(Files(levels[l])) && e !in InputEntries(c)
    ensures e in EntriesOf(Files(levels'[l]))
  {
    var g :| g in Files(levels[l]) && e in g.entries;
    assert g in Files(c.inputs0) ==> e in EntriesOf(Files(c.inputs0));
    assert g in Files(c.inputs1) ==> e in EntriesOf(Files(c.inputs1));
    assert g in Files(levels'[l]);
  }

  lemma EntriesAfter(levels: seq<seq<File>>, c: Compaction, outs: set<File>, levels': seq<seq<File>>)
    requires ValidVersion(levels) && Compacted(levels, c, outs, levels')
    ensures VersionEntries(levels') <= VersionEntries(levels) - InputEntries(c) + EntriesOf(outs)
  {
    forall e | e in VersionEntries(levels') ensures e in VersionEntries(levels) - InputEntries(c) + EntriesOf(outs) {
      var l :| 0 <= l < NUM_LEVELS && e in EntriesOf(Files(levels'[l]));
      EntryAfter(levels, c, outs, levels', l, e);
    }
  }

  lemma EntriesStay(levels: seq<seq<File>>, c: Compaction, outs: set<File>, levels': seq<seq<File>>)
    requires Compacted(levels, c, outs, levels')
    ensures VersionEntries(levels) - InputEntries(c) <= VersionEntries(levels')
  {
    forall e | e in VersionEntries(levels) - InputEntries(c) ensures e in VersionEntries(levels') {
      var l :| 0 <= l < NUM_LEVELS && e in EntriesOf(Files(levels[l]));
      EntryStays(levels, c, outs, levels', l, e);
    }
  }

  lemma OutputsStored(levels: seq<seq<File>>, c: Compaction, outs: set<File>, levels': seq<seq<File>>)
    requires Compacted(levels, c, outs, levels')
    ensures EntriesOf(outs) <= VersionEntries(levels')
  {
    EntriesMonotone(outs, Files(levels'[c.level + 1]));
  }

  lemma CompactedEntries(levels: seq<seq<File>>, c: Compaction, outs: set<File>, levels': seq<seq<File>>)
    requires ValidVersion(levels) && c.level + 1 < NUM_LEVELS && Compacted(levels, c, outs, levels')
    ensures VersionEntries(levels') == VersionEntries(levels) - InputEntries(c) + EntriesOf(outs)
  {
    EntriesAfter(levels, c, outs, levels');
    EntriesStay(levels, c, outs, levels');
    OutputsStored(levels, c, outs, levels');
  }

  /** Either way of replacing files: what is stored afterwards. */
  lemma ReplacedStored(db: Db, c: Compaction, outs: set<File>, levels': seq<seq<File>>)
    requires Layered(db) && c.level + 1 < NUM_LEVELS && Compacted(db.levels, c, outs, levels')
    requires EntriesOf(outs) <= InputEntries(c)
    ensures InLayers(Elements(db.mem), ImmEntries(db), VersionEntries(levels'))
    ensures Stored(db.(levels := levels')) == Untouched(db, c) + EntriesOf(outs)
    ensures Stored(db) == Untouched(db, c) + InputEntries(c)
    ensures Stored(db.(levels := levels')) <= Stored(db)
  {
    CompactedEntries(db.levels, c, outs, levels');
    InputsStored(db.levels, c);
    LayersShrink(Elements(db.mem), ImmEntries(db), VersionEntries(db.levels), VersionEntries(levels'));
    StoredParts(Elements(db.mem), ImmEntries(db), VersionEntries(db.levels), InputEntries(c), EntriesOf(outs));
  }

  /** And the layers survive if the outputs keep apart from what is left. */
  lemma ReplaceKeepsLayers(db: Db, c: Compaction, outs: set<File>, levels': seq<seq<File>>)
    requires Layered(db) && c.level + 1 < NUM_LEVELS && Compacted(db.levels, c, outs, levels') && NumbersUnique(levels')
    requires ValidFiles(outs) && Disjoint(outs) && EntriesOf(outs) <= InputEntries(c) && LeftApart(db.levels, c, outs)
    ensures Layered(db.(levels := levels'))
  {
    CompactionKeepsVersion(db.levels, c, outs, levels');
    ReplacedStored(db, c, outs, levels');
  }

  lemma InputsStored(levels: seq<seq<File>>, c: Compaction)
    requires HeldInputs(levels, c)
    ensures InputEntries(c) <= VersionEntries(levels)
  {
    InputsWithin(levels, c);
  }

  lemma StoredParts(mem: set<Entry>, imm: set<Entry>, version: set<Entry>, inputs: set<Entry>, outs: set<Entry>)
    requires InLayers(mem, imm, version) && inputs <= version && outs <= inputs
    ensures mem + imm + (version - inputs + outs) == mem + imm + version - inputs + outs
    ensures mem + imm + version == mem + imm + version - inputs + inputs
    ensures version - inputs + outs <= version
  {
    assert mem !! version by { NewerApart(mem, version); }
    assert imm !! version by { NewerApart(imm, version); }
  }
}
