/** Opening the database after a crash (DBImpl::Recover, DBImpl::RecoverLogFile): the
    manifest has the tables, and of each log a prefix is left, so that unsynced writes can be
    missing.  What is recovered is in order again, and reads as what was left does, exactly
    if the tables alone have always read as all that was flushed. */
module Reopening {
  import opened InternalKeys
  import opened Lists
  import opened SnapshotReads
  import opened Versions
  import opened CompactionInputs
  import opened CompactionRules
  import opened CompactionLoop
  import opened VersionBuilder
  import opened VersionSteps
  import opened Database
  import opened DatabaseRuns
  import opened BoundarySafety
  import opened DbImplementation

  // ---- what is in the tables, and what is in the logs ----

  ghost function InLogs(db: Db): set<Entry> { Elements(db.mem) + ImmEntries(db) }

  /** The database without its memtables, with the history of what has been flushed. */
  ghost function Tables(w: World): World { World(w.db.(mem := [], imm := None), w.history - InLogs(w.db), w.floor) }

  /** A log entry is newer than anything of its key that has been flushed. */
  ghost predicate LogsAreNewer(w: World) { Newer(InLogs(w.db), w.history - InLogs(w.db)) }

  lemma TablesAreInOrder(w: World)
    requires Structure(w)
    ensures Structure(Tables(w)) && Stored(Tables(w).db) == VersionEntries(w.db.levels)
    ensures Stored(w.db) == VersionEntries(w.db.levels) + InLogs(w.db) && InLogs(w.db) <= w.history
    ensures InLogs(w.db) !! VersionEntries(w.db.levels)
  {
    NewerApart(Elements(w.db.mem), VersionEntries(w.db.levels));
    NewerApart(ImmEntries(w.db), VersionEntries(w.db.levels));
    assert Stored(Tables(w).db) == VersionEntries(w.db.levels);
  }

  // ---- a crash ----

  /** What the last manifest record holds: a sequence number nothing flushed is above, and a
      file number no table has reached. */
  datatype Manifest = Manifest(lastSequence: nat, nextFile: nat)

  ghost predicate ManifestOk(w: World, m: Manifest) {
    && w.floor <= m.lastSequence <= w.db.lastSequence && NumbersBelow(w.db.levels, m.nextFile)
    && forall e :: e in w.history - InLogs(w.db) ==> e.sequence <= m.lastSequence
  }

  /** The level-0 tables made of the logs, oldest first, and the memtable that goes on with
      the last one. */
  datatype Recovery = Recovery(files: seq<File>, mem: seq<Entry>, nextFile: nat)

  ghost predicate NewerFiles(files: seq<File>) {
    forall i, j :: 0 <= i < j < |files| ==> Newer(Elements(files[j].entries), Elements(files[i].entries))
  }

  ghost predicate NumberedFrom(files: seq<File>, next: nat, end: nat) {
    && (forall i :: 0 <= i < |files| ==> next <= files[i].number < end)
    && forall i, j :: 0 <= i < j < |files| ==> files[i].number < files[j].number
  }

  /** Tables with ascending numbers from `next` on, then the memtable, hold these entries. */
  ghost predicate SoFar(all: set<Entry>, files: seq<File>, mem: seq<Entry>, next: nat, end: nat) {
    && AllValid(files) && Sorted(mem) && EntriesOf(Files(files)) + Elements(mem) == all
    && NewerFiles(files) && Newer(Elements(mem), EntriesOf(Files(files)))
    && NumberedFrom(files, next, end) && next <= end
  }

  function RecoveryEdit(files: seq<File>): VersionEdit {
    VersionEdit({}, seq(|files|, i requires 0 <= i < |files| => (0, files[i])))
  }

  /** No sequence is above `last`. */
  ghost predicate LastOf(es: set<Entry>, recorded: nat, last: nat) {
    recorded <= last && forall e :: e in es ==> e.sequence <= last
  }

  ghost predicate Reopened(w: World, m: Manifest, left: set<Entry>, r: Recovery, w': World) {
    && SoFar(left, r.files, r.mem, m.nextFile, r.nextFile)
    && w'.db == Db(r.mem, None, w'.db.levels, w'.db.lastSequence, [], r.nextFile)
    && LastOf(left, m.lastSequence, w'.db.lastSequence) && w'.db.lastSequence <= w.db.lastSequence
    && Edited(w.db.levels, RecoveryEdit(r.files), w'.db.levels)
    && w'.history == w.history - InLogs(w.db) + left && w'.floor == w.floor
  }

  // ---- the recovered database is in order ----

  lemma RecoveryEditAt(levels: seq<seq<File>>, files: seq<File>, l: nat)
    requires l < |levels|
    ensures NextFiles(Files(levels[l]), RecoveryEdit(files), l)
            == Files(levels[l]) + (if l == 0 then Files(files) else {})
  {
    var edit := RecoveryEdit(files);
    forall f | f in files ensures (0, f) in edit.added {
      var i :| 0 <= i < |files| && files[i] == f;
      assert edit.added[i] == (0, f);
    }
    assert AddedAt(edit.added, l) == if l == 0 then Files(files) else {};
    assert DeletedAt(edit, l) == {};
  }

  /** Level 0 gets the files, the others stay. */
  ghost predicate Prepended(levels: seq<seq<File>>, files: set<File>, levels': seq<seq<File>>) {
    && |levels'| == |levels| == NUM_LEVELS
    && forall l :: 0 <= l < NUM_LEVELS ==>
         SortedFiles(levels'[l]) && Files(levels'[l]) == Files(levels[l]) + (if l == 0 then files else {})
  }

  lemma RecoveryPrepends(levels: seq<seq<File>>, files: seq<File>, levels': seq<seq<File>>)
    requires Edited(levels, RecoveryEdit(files), levels')
    ensures Prepended(levels, Files(files), levels')
  {
    forall l | 0 <= l < NUM_LEVELS
      ensures SortedFiles(levels'[l]) && Files(levels'[l]) == Files(levels[l]) + (if l == 0 then Files(files) else {})
    { RecoveryEditAt(levels, files, l); }
  }

  lemma PrependedEntries(levels: seq<seq<File>>, files: set<File>, levels': seq<seq<File>>)
    requires Prepended(levels, files, levels')
    ensures VersionEntries(levels') == VersionEntries(levels) + EntriesOf(files)
    ensures forall l :: 0 <= l < NUM_LEVELS ==>
              EntriesOf(Files(levels'[l])) == EntriesOf(Files(levels[l])) + (if l == 0 then EntriesOf(files) else {})
  {
    forall l | 0 <= l < NUM_LEVELS
      ensures EntriesOf(Files(levels'[l])) == EntriesOf(Files(levels[l])) + (if l == 0 then EntriesOf(files) else {})
    { EntriesUnion(Files(levels[l]), files); }
    forall e ensures e in VersionEntries(levels') <==> e in VersionEntries(levels) + EntriesOf(files) {
      if e in EntriesOf(files) { assert e in EntriesOf(Files(levels'[0])); }
      if e in VersionEntries(levels) {
        var l :| 0 <= l < NUM_LEVELS && e in EntriesOf(Files(levels[l]));
        assert e in EntriesOf(Files(levels'[l]));
      }
    }
  }

  lemma NewerTogether(a: set<Entry>, b: set<Entry>, c: set<Entry>)
    requires Newer(a, c) && Newer(b, c)
    ensures Newer(a + b, c)
  {
  }

  lemma PrependedNewer(levels: seq<seq<File>>, files: set<File>, levels': seq<seq<File>>, l: nat, m: nat)
    requires Prepended(levels, files, levels') && l < m < NUM_LEVELS
    requires Newer(EntriesOf(files), VersionEntries(levels))
             && Newer(EntriesOf(Files(levels[l])), EntriesOf(Files(levels[m])))
    ensures Newer(EntriesOf(Files(levels'[l])), EntriesOf(Files(levels'[m])))
  {
    hide Newer;
    PrependedEntries(levels, files, levels');
    assert EntriesOf(Files(levels'[m])) == EntriesOf(Files(levels[m]));
    OfLevel(EntriesOf(files), levels, m);
    if l == 0 {
      NewerTogether(EntriesOf(Files(levels[0])), EntriesOf(files), EntriesOf(Files(levels[m])));
    } else {
      assert EntriesOf(Files(levels'[l])) == EntriesOf(Files(levels[l]));
    }
  }

  lemma OfLevel(a: set<Entry>, levels: seq<seq<File>>, m: nat)
    requires m < |levels| && Newer(a, VersionEntries(levels))
    ensures Newer(a, EntriesOf(Files(levels[m])))
  {
  }

  lemma PrependedByNumber(levels: seq<seq<File>>, files: seq<File>, levels': seq<seq<File>>, next: nat, end: nat)
    requires ValidVersion(levels) && Prepended(levels, Files(files), levels') && NumbersBelow(levels, next)
    requires NewerFiles(files) && NumberedFrom(files, next, end)
    requires Newer(EntriesOf(Files(files)), VersionEntries(levels))
    ensures NewerByNumber(Files(levels'[0]))
  {
    forall f, g | f in Files(levels'[0]) && g in Files(levels'[0]) && f.number > g.number
      ensures Newer(Elements(f.entries), Elements(g.entries))
    {
      if g in files { SameNumber(files, next, end, g, g); }
      if f in files {
        var i :| 0 <= i < |files| && files[i] == f;
        if g in files {
          var j :| 0 <= j < |files| && files[j] == g;
          assert j < i;
        } else {
          OfFile(Files(files), f);
          OfFile(Files(levels[0]), g);
        }
      } else {
        assert f in levels[0] && f.number < next;
      }
    }
  }

  lemma OfFile(fs: set<File>, f: File)
    requires f in fs
    ensures Elements(f.entries) <= EntriesOf(fs)
  {
  }

  lemma PlaceAfter(levels: seq<seq<File>>, files: set<File>, levels': seq<seq<File>>, l: nat, f: File)
    requires Prepended(levels, files, levels') && l < NUM_LEVELS && f in levels'[l]
    ensures f in levels[l] || (l == 0 && f in files)
  {
    assert f in Files(levels'[l]);
  }

  lemma SameNumber(files: seq<File>, next: nat, end: nat, f: File, g: File)
    requires NumberedFrom(files, next, end) && f in files
    ensures next <= f.number < end && (g in files && f.number == g.number ==> f == g)
  {
    var i :| 0 <= i < |files| && files[i] == f;
    if g in files {
      var j :| 0 <= j < |files| && files[j] == g;
    }
  }

  lemma PrependedNumbers(levels: seq<seq<File>>, files: seq<File>, levels': seq<seq<File>>, next: nat, end: nat)
    requires NumbersUnique(levels) && Prepended(levels, Files(files), levels') && NumbersBelow(levels, next)
    requires NumberedFrom(files, next, end) && next <= end
    ensures NumbersUnique(levels') && NumbersBelow(levels', end)
  {
    hide Prepended;
    hide NumberedFrom;
    assert |levels'| == |levels| == NUM_LEVELS by { Lengths(levels, Files(files), levels'); }
    forall l, f | 0 <= l < NUM_LEVELS && f in levels'[l] ensures f.number < end {
      PlaceAfter(levels, Files(files), levels', l, f);
      if f in files { SameNumber(files, next, end, f, f); }
    }
    forall l, m, f, g | 0 <= l <= m < NUM_LEVELS && f in levels'[l] && g in levels'[m] && f.number == g.number
      ensures l == m && f == g
    {
      PlaceAfter(levels, Files(files), levels', l, f);
      PlaceAfter(levels, Files(files), levels', m, g);
      if f in files { SameNumber(files, next, end, f, g); }
      if g in files { SameNumber(files, next, end, g, f); }
    }
  }

  lemma Lengths(levels: seq<seq<File>>, files: set<File>, levels': seq<seq<File>>)
    requires Prepended(levels, files, levels')
    ensures |levels'| == |levels| == NUM_LEVELS && forall l :: 0 <= l < NUM_LEVELS ==> SortedFiles(levels'[l])
  {
  }

  lemma PrependedVersion(levels: seq<seq<File>>, files: seq<File>, levels': seq<seq<File>>, next: nat, end: nat)
    requires ValidVersion(levels) && Prepended(levels, Files(files), levels') && NumbersBelow(levels, next)
             && next <= end
    requires NewerFiles(files) && NumberedFrom(files, next, end)
    requires Newer(EntriesOf(Files(files)), VersionEntries(levels))
    requires DistinctSequences(VersionEntries(levels) + EntriesOf(Files(files)))
    ensures ValidVersion(levels') && NumbersBelow(levels', end)
  {
    var before := VersionEntries(levels);
    OldParts(levels);
    hide Prepended;
    hide NewerFiles;
    hide NumberedFrom;
    hide NumbersBelow;
    hide Newer;
    hide NumbersUnique;
    hide DistinctSequences;
    hide SortedFiles;
    PrependedEntries(levels, Files(files), levels');
    PrependedByNumber(levels, files, levels', next, end);
    PrependedNumbers(levels, files, levels', next, end);
    Lengths(levels, Files(files), levels');
    hide ValidVersion;
    forall l, m | 0 <= l < m < NUM_LEVELS ensures Newer(EntriesOf(Files(levels'[l])), EntriesOf(Files(levels'[m]))) {
      PrependedNewer(levels, Files(files), levels', l, m);
    }
    forall l | 1 <= l < NUM_LEVELS ensures ValidFiles(Files(levels'[l])) && Disjoint(Files(levels'[l])) {
      DeeperStay(levels, Files(files), levels', l);
    }
    ValidParts(levels');
  }

  lemma OldParts(levels: seq<seq<File>>)
    requires ValidVersion(levels)
    ensures |levels| == NUM_LEVELS && NumbersUnique(levels)
    ensures forall l, m :: 0 <= l < m < NUM_LEVELS ==> Newer(EntriesOf(Files(levels[l])), EntriesOf(Files(levels[m])))
  {
  }

  lemma DeeperStay(levels: seq<seq<File>>, files: set<File>, levels': seq<seq<File>>, l: nat)
    requires ValidVersion(levels) && Prepended(levels, files, levels') && 1 <= l < NUM_LEVELS
    ensures ValidFiles(Files(levels'[l])) && Disjoint(Files(levels'[l]))
  {
    LevelFacts(levels, l);
    assert Files(levels'[l]) == Files(levels[l]);
  }

  lemma NewerLeft(w: World, left: set<Entry>)
    requires Structure(w) && LogsAreNewer(w) && left <= InLogs(w.db)
    ensures Newer(left, VersionEntries(w.db.levels)) && Newer(left, w.history - InLogs(w.db))
    ensures VersionEntries(w.db.levels) <= w.history - InLogs(w.db) && left <= w.history
  {
    TablesAreInOrder(w);
  }

  /** The database that was reopened is in order, and stores the tables and what was left. */
  lemma ReopenKeepsStructure(w: World, m: Manifest, left: set<Entry>, r: Recovery, w': World)
    requires Structure(w) && LogsAreNewer(w) && ManifestOk(w, m) && left <= InLogs(w.db) && Reopened(w, m, left, r, w')
    ensures Structure(w') && LogsAreNewer(w') && Stored(w'.db) == VersionEntries(w.db.levels) + left
  {
    var version, files := w.db.levels, EntriesOf(Files(r.files));
    NewerLeft(w, left);
    RecoveryPrepends(version, r.files, w'.db.levels);
    PrependedEntries(version, Files(r.files), w'.db.levels);
    assert VersionEntries(version) + files <= w.history;
    PrependedVersion(version, r.files, w'.db.levels, m.nextFile, r.nextFile);
    ReopenedStructure(w, m, left, r, w');
  }

  lemma ReopenedStructure(w: World, m: Manifest, left: set<Entry>, r: Recovery, w': World)
    requires Structure(w) && ManifestOk(w, m) && left <= InLogs(w.db) && Reopened(w, m, left, r, w')
    requires Newer(left, VersionEntries(w.db.levels)) && Newer(left, w.history - InLogs(w.db)) && left <= w.history
    requires VersionEntries(w.db.levels) <= w.history - InLogs(w.db)
    requires ValidVersion(w'.db.levels) && NumbersBelow(w'.db.levels, r.nextFile)
    requires VersionEntries(w'.db.levels) == VersionEntries(w.db.levels) + EntriesOf(Files(r.files))
    ensures Structure(w') && LogsAreNewer(w') && Stored(w'.db) == VersionEntries(w.db.levels) + left
  {
    hide ValidVersion;
    hide Edited;
    hide NewerFiles;
    hide NumberedFrom;
    assert InLogs(w'.db) == Elements(r.mem);
    assert Layered(w'.db);
    forall e | e in w'.history ensures e.sequence <= w'.db.lastSequence {}
    assert w'.db.lastSequence <= w.db.lastSequence;
    assert Recorded(w');
  }

  // ---- reads ----

  /** Whatever is left of the logs: the recovered database reads as what was left does, if
      the tables read as what was flushed does. */
  lemma ReopenKeepsReads(w: World, m: Manifest, left: set<Entry>, r: Recovery, w': World)
    requires Structure(w) && LogsAreNewer(w) && ManifestOk(w, m) && left <= InLogs(w.db) && Reopened(w, m, left, r, w')
    requires ReadsAgree(Tables(w))
    ensures ReadsAgree(w') && ReadsAgree(Tables(w'))
  {
    TablesAreInOrder(w);
    ReopenKeepsStructure(w, m, left, r, w');
    TablesAreInOrder(w');
    NewerLeft(w, left);
    AddedOnBothSides(w.history, VersionEntries(w.db.levels), w.history - InLogs(w.db), left, w.floor);
    var files := EntriesOf(Files(r.files));
    RecoveredTables(w, m, left, r, w');
    AddedOnBothSides(w.history, VersionEntries(w.db.levels), w.history - InLogs(w.db), files, w.floor);
  }

  lemma AddedOnBothSides(all: set<Entry>, stored: set<Entry>, history: set<Entry>, added: set<Entry>, floor: nat)
    requires DistinctSequences(all) && history <= all && added <= all && stored <= history
    requires SameReads(history, stored, floor) && Newer(added, history)
    ensures SameReads(history + added, stored + added, floor)
  {
    assert history + added <= all;
    WriteKeepsReads(history, stored, added, floor);
  }

  lemma RecoveredTables(w: World, m: Manifest, left: set<Entry>, r: Recovery, w': World)
    requires Structure(w) && LogsAreNewer(w) && left <= InLogs(w.db) && Reopened(w, m, left, r, w')
    ensures var files := EntriesOf(Files(r.files));
            && files <= left && Newer(files, w.history - InLogs(w.db))
            && w'.history - InLogs(w'.db) == w.history - InLogs(w.db) + files
            && VersionEntries(w'.db.levels) == VersionEntries(w.db.levels) + files
  {
    var files := EntriesOf(Files(r.files));
    RecoveryPrepends(w.db.levels, r.files, w'.db.levels);
    PrependedEntries(w.db.levels, Files(r.files), w'.db.levels);
    NewerApart(Elements(r.mem), files);
    NewerLeft(w, left);
    assert Newer(Elements(r.mem), w.history - InLogs(w.db));
    NewerApart(Elements(r.mem), w.history - InLogs(w.db));
  }

  /** The crash in which nothing of the logs is left. */
  lemma AllLogsLost(w: World, m: Manifest) returns (r: Recovery, w': World)
    requires Structure(w) && ManifestOk(w, m)
    ensures Reopened(w, m, {}, r, w') && (ReadsAgree(w') <==> ReadsAgree(Tables(w)))
  {
    r := Recovery([], [], m.nextFile);
    w' := World(Db([], None, w.db.levels, m.lastSequence, [], m.nextFile), w.history - InLogs(w.db), w.floor);
    assert Files([]) == {} && EntriesOf({}) == {};
    LevelsOf(w);
    forall l | 0 <= l < NUM_LEVELS
      ensures SortedFiles(w.db.levels[l])
              && Files(w.db.levels[l]) == NextFiles(Files(w.db.levels[l]), RecoveryEdit([]), l)
    { RecoveryEditAt(w.db.levels, [], l); }
    assert SoFar({}, [], [], m.nextFile, m.nextFile);
    assert Stored(w'.db) == Stored(Tables(w).db);
  }

  /** Reads survive every crash. */
  ghost predicate CrashProof(w: World, m: Manifest) {
    forall left, r, w' :: left <= InLogs(w.db) && Reopened(w, m, left, r, w') ==> ReadsAgree(w')
  }

  /** The exact condition for that: the tables read as everything flushed does. */
  lemma CrashProofIff(w: World, m: Manifest)
    requires Structure(w) && LogsAreNewer(w) && ManifestOk(w, m)
    ensures CrashProof(w, m) <==> ReadsAgree(Tables(w))
    ensures ReadsAgree(Tables(w)) ==> ReadsAgree(w)
  {
    if ReadsAgree(Tables(w)) {
      forall left, r, w' | left <= InLogs(w.db) && Reopened(w, m, left, r, w') ensures ReadsAgree(w') {
        ReopenKeepsReads(w, m, left, r, w');
      }
      TablesAreInOrder(w);
      AddedOnBothSides(w.history, VersionEntries(w.db.levels), w.history - InLogs(w.db), InLogs(w.db), w.floor);
      assert w.history - InLogs(w.db) + InLogs(w.db) == w.history;
    }
    var r, w' := AllLogsLost(w, m);
  }

  // ---- runs with crashes ----

  /** `synced` are the writes that a sync has made durable. */
  datatype Store = Store(w: World, m: Manifest, synced: set<Entry>)

  datatype Event = Live(a: Action) | Sync | Crash(left: set<Entry>, r: Recovery)

  predicate WritesManifest(a: Action) { a.FlushMemTable? || a.TrivialMove? || a.Compact? }

  function ManifestOf(db: Db): Manifest { Manifest(db.lastSequence, db.nextFile) }

  ghost predicate StoreStep(s: Store, e: Event, s': Store)
    requires SearchableLevels(s.w.db.levels)
  {
    match e
    case Live(a) =>
      && Step(s.w, a, s'.w)
      && s' == Store(s'.w, if WritesManifest(a) then ManifestOf(s'.w.db) else s.m, s.synced)
    case Sync => s' == s.(synced := s.synced + Elements(s.w.db.mem))  // fdatasync of the log that is written
    case Crash(left, r) =>
      left <= InLogs(s.w.db) && s.synced * InLogs(s.w.db) <= left && Reopened(s.w, s.m, left, r, s'.w)
      && s' == Store(s'.w, ManifestOf(s'.w.db), s.synced)
  }

  ghost predicate StoreOk(s: Store) {
    Structure(s.w) && LogsAreNewer(s.w) && ManifestOk(s.w, s.m) && s.synced <= s.w.history
  }

  lemma OldHistory(history: set<Entry>, last: nat, added: set<Entry>)
    requires (forall e :: e in history ==> e.sequence <= last) && forall e :: e in added ==> e.sequence > last
    ensures history !! added
  {
  }

  lemma WriteKeepsLogs(w: World, batch: Batch, w': World)
    requires Structure(w) && LogsAreNewer(w) && WriteStep(w, batch, w')
    ensures LogsAreNewer(w') && w'.history - InLogs(w'.db) == w.history - InLogs(w.db)
  {
    var added := BatchEntries(batch, w.db.lastSequence);
    TablesAreInOrder(w);
    BatchIsNewest(batch, w.db.lastSequence, w.history);
    OldHistory(w.history, w.db.lastSequence, added);
    assert InLogs(w'.db) == InLogs(w.db) + added;
    NewerTogether(InLogs(w.db), added, w.history - InLogs(w.db));
  }

  lemma FlushKeepsLogs(w: World, level: nat, size: nat, w': World)
    requires Structure(w) && LogsAreNewer(w) && FlushStep(w, level, size, w')
    ensures LogsAreNewer(w') && w'.history - InLogs(w'.db) == w.history - InLogs(w.db) + ImmEntries(w.db)
    ensures Newer(ImmEntries(w.db), w.history - InLogs(w.db))
  {
    TablesAreInOrder(w);
    NewerApart(Elements(w.db.mem), ImmEntries(w.db));
    assert InLogs(w'.db) == Elements(w.db.mem);
  }

  lemma LiveKeepsLogs(w: World, a: Action, w': World)
    requires Structure(w) && LogsAreNewer(w) && Step(w, a, w')
    ensures LogsAreNewer(w')
    ensures w'.history - InLogs(w'.db)
         == w.history - InLogs(w.db) + (if a.FlushMemTable? then ImmEntries(w.db) else {})
  {
    hide Structure;
    hide LogsAreNewer;
    hide InLogs;
    if a.Write? { WriteKeepsLogs(w, a.batch, w'); }
    else if a.FlushMemTable? { FlushKeepsLogs(w, a.level, a.size, w'); }
    else { SameLogs(w, a, w'); }
  }

  lemma SameLogs(w: World, a: Action, w': World)
    requires Structure(w) && LogsAreNewer(w) && Step(w, a, w') && !a.Write? && !a.FlushMemTable?
    ensures InLogs(w'.db) == InLogs(w.db) && w'.history == w.history && LogsAreNewer(w')
  {
    hide Newer;
    hide Structure;
    assert InLogs(w'.db) == InLogs(w.db);
  }

  lemma LiveKeepsManifest(w: World, m: Manifest, a: Action, w': World)
    requires Structure(w) && Structure(w') && LogsAreNewer(w) && ManifestOk(w, m) && Step(w, a, w')
    ensures ManifestOk(w', if WritesManifest(a) then ManifestOf(w'.db) else m)
  {
    hide Layered;
    LiveKeepsLogs(w, a, w');
    hide LogsAreNewer;
    if !WritesManifest(a) { assert w'.db.levels == w.db.levels && w'.floor == w.floor; }
  }

  lemma StoreStepKeeps(s: Store, e: Event, s': Store)
    requires StoreOk(s) && StoreStep(s, e, s')
    ensures StoreOk(s')
  {
    hide Layered;
    match e
    case Live(a) =>
      StepKeepsStructure(s.w, a, s'.w);
      LiveKeepsLogs(s.w, a, s'.w);
      LiveKeepsManifest(s.w, s.m, a, s'.w);
      HistoryGrows(s.w, a, s'.w);
    case Sync => TablesAreInOrder(s.w);
    case Crash(left, r) =>
      ReopenKeepsStructure(s.w, s.m, left, r, s'.w);
  }

  lemma HistoryGrows(w: World, a: Action, w': World)
    requires Structure(w) && Step(w, a, w')
    ensures w.history <= w'.history
  {
  }

  /** A compaction does the same without the memtables. */
  lemma ReplaceTables(w: World, a: Action, w': World)
    requires Structure(w) && Step(w, a, w') && (a.Compact? || a.TrivialMove?)
    ensures Step(Tables(w), a, Tables(w'))
  {
    hide Structure;
    hide SearchableLevels;
    hide ClosedInputs;
    hide HeldInputs;
    hide Edited;
    hide OutputsOf;
    LevelsOf(w);
    assert InLogs(w'.db) == InLogs(w.db);
    if a.Compact? { assert CompactStep(Tables(w), a.c, a.outs, a.floor, Tables(w')); }
  }

  lemma FlushedIntoTables(w: World, level: nat, size: nat, w': World)
    requires Structure(w) && Structure(w') && FlushStep(w, level, size, w')
    ensures VersionEntries(w'.db.levels) == VersionEntries(w.db.levels) + ImmEntries(w.db)
  {
    FlushKeepsStructure(w, level, size, w');
    NewerApart(Elements(w.db.mem), ImmEntries(w.db));
    NewerApart(Elements(w.db.mem), VersionEntries(w.db.levels));
    NewerApart(Elements(w.db.mem), VersionEntries(w'.db.levels));
    var mem, v, v', i := Elements(w.db.mem), VersionEntries(w.db.levels), VersionEntries(w'.db.levels),
        ImmEntries(w.db);
    assert mem + v' == mem + i + v;
    assert v' == mem + v' - mem && v + i == mem + i + v - mem;
  }

  lemma ReplaceReads(w: World, a: Action, w': World)
    requires Structure(w) && ReadsAgree(Tables(w)) && Step(w, a, w') && (a.Compact? || a.TrivialMove?)
    ensures ReadsAgree(Tables(w')) <==> !Loses(Tables(w), a)
  {
    hide Structure;
    hide Step;
    hide Loses;
    hide SafeAction;
    hide ReadsAgree;
    hide Tables;
    TablesAreInOrder(w);
    ReplaceTables(w, a, w');
    StepReadsIff(Tables(w), a, Tables(w'));
    ActionSafeIff(Tables(w), a, Tables(w'));
  }

  lemma FlushReads(w: World, level: nat, size: nat, w': World)
    requires Structure(w) && Structure(w') && LogsAreNewer(w) && ReadsAgree(Tables(w)) && FlushStep(w, level, size, w')
    ensures ReadsAgree(Tables(w'))
  {
    TablesAreInOrder(w);
    TablesAreInOrder(w');
    FlushKeepsLogs(w, level, size, w');
    FlushedIntoTables(w, level, size, w');
    hide LogsAreNewer;
    hide FlushStep;
    hide SameReads;
    hide Layered;
    hide VersionEntries;
    AddedOnBothSides(w.history, VersionEntries(w.db.levels), w.history - InLogs(w.db), ImmEntries(w.db), w.floor);
    FlushKeepsFloor(w, level, size, w');
  }

  lemma FlushKeepsFloor(w: World, level: nat, size: nat, w': World)
    requires SearchableLevels(w.db.levels) && FlushStep(w, level, size, w')
    ensures w'.floor == w.floor
  {
  }

  lemma OtherReads(w: World, a: Action, w': World)
    requires Structure(w) && Structure(w') && LogsAreNewer(w) && ReadsAgree(Tables(w)) && Step(w, a, w')
             && !WritesManifest(a)
    ensures ReadsAgree(Tables(w'))
  {
    hide Structure;
    hide LogsAreNewer;
    hide Step;
    hide SameReads;
    TablesAreInOrder(w);
    TablesAreInOrder(w');
    LiveKeepsLogs(w, a, w');
    LevelsStay(w, a, w');
    assert w'.history - InLogs(w'.db) == w.history - InLogs(w.db);
  }

  lemma LevelsStay(w: World, a: Action, w': World)
    requires Structure(w) && Step(w, a, w') && !WritesManifest(a)
    ensures w'.db.levels == w.db.levels && w'.floor == w.floor
  {
  }

  /** A step keeps the tables reading as everything flushed exactly if it is not a
      compaction that loses a deletion among the tables alone. */
  lemma TablesReadIff(w: World, a: Action, w': World)
    requires Structure(w) && LogsAreNewer(w) && ReadsAgree(Tables(w)) && Step(w, a, w')
    ensures ReadsAgree(Tables(w')) <==> !Loses(Tables(w), a)
  {
    hide Structure;
    hide LosesDeletion;
    hide ReadsAgree;
    hide Tables;
    hide LogsAreNewer;
    StepKeepsStructure(w, a, w');
    TablesAreInOrder(w);
    if a.Compact? || a.TrivialMove? { ReplaceReads(w, a, w'); }
    else if a.FlushMemTable? { FlushReads(w, a.level, a.size, w'); }
    else { OtherReads(w, a, w'); }
  }

  // ---- every run ----

  ghost predicate StoreRun(ss: seq<Store>, es: seq<Event>) {
    && |ss| == |es| + 1 && InitWorld(ss[0].w) && ss[0].m == Manifest(0, 2) && ss[0].synced == {}
    && forall i :: 0 <= i < |es| ==> SearchableLevels(ss[i].w.db.levels) && StoreStep(ss[i], es[i], ss[i + 1])
  }

  /** In every run with crashes the database is in order, and no synced write is lost. */
  lemma {:induction false} StoreRunKeeps(ss: seq<Store>, es: seq<Event>, n: nat)
    requires StoreRun(ss, es) && n <= |es|
    ensures StoreOk(ss[n])
  {
    hide StoreStep;
    hide SearchableLevels;
    if n == 0 {
      InitStructure(ss[0].w);
      assert InLogs(ss[0].w.db) == {} && ss[0].w.history == {};
    } else {
      StoreRunKeeps(ss, es, n - 1);
      hide StoreOk;
      StoreStepKeeps(ss[n - 1], es[n - 1], ss[n]);
    }
  }

  /** The event installs a compaction that loses a deletion among the tables, even if a
      newer write in the logs hides that now. */
  ghost predicate LosesInTables(s: Store, e: Event) {
    e.Live? && SearchableLevels(s.w.db.levels) && Loses(Tables(s.w), e.a)
  }

  lemma StoreReadsIff(s: Store, e: Event, s': Store)
    requires StoreOk(s) && SearchableLevels(s.w.db.levels) && StoreStep(s, e, s') && ReadsAgree(Tables(s.w))
    ensures ReadsAgree(Tables(s'.w)) <==> !LosesInTables(s, e)
  {
    hide Structure;
    hide ReadsAgree;
    hide Step;
    hide LogsAreNewer;
    hide ManifestOk;
    hide Reopened;
    hide Loses;
    hide Tables;
    match e
    case Live(a) => TablesReadIff(s.w, a, s'.w);
    case Sync =>
    case Crash(left, r) => ReopenKeepsReads(s.w, s.m, left, r, s'.w);
  }

  /** Every run with crashes: in all its states the reads are right and stay right over any
      crash exactly when no compaction loses a deletion among the tables. */
  lemma StoreRunReadsIff(ss: seq<Store>, es: seq<Event>)
    requires StoreRun(ss, es)
    ensures (forall i :: 0 <= i < |ss| ==> ReadsAgree(ss[i].w) && CrashProof(ss[i].w, ss[i].m))
            <==> (forall i :: 0 <= i < |es| ==> !LosesInTables(ss[i], es[i]))
  {
    hide ReadsAgree;
    hide CrashProof;
    hide LosesInTables;
    hide StoreStep;
    hide Structure;
    hide LogsAreNewer;
    hide ManifestOk;
    hide Tables;
    hide SearchableLevels;
    var agree := seq(|ss|, i requires 0 <= i < |ss| => ReadsAgree(Tables(ss[i].w)));
    var safe := seq(|es|, i requires 0 <= i < |es| => !LosesInTables(ss[i], es[i]));
    StartsRight(ss[0].w);
    forall i | 0 <= i < |es| && agree[i] ensures agree[i + 1] <==> safe[i] {
      StoreRunKeeps(ss, es, i);
      StoreReadsIff(ss[i], es[i], ss[i + 1]);
    }
    FirstFailure(agree, safe, |es|);
    forall i | 0 <= i < |ss| ensures agree[i] <==> ReadsAgree(ss[i].w) && CrashProof(ss[i].w, ss[i].m) {
      StoreRunKeeps(ss, es, i);
      CrashProofIff(ss[i].w, ss[i].m);
    }
    assert forall i :: 0 <= i < |es| ==> safe[i] == !LosesInTables(ss[i], es[i]);
  }

  lemma StartsRight(w: World)
    requires InitWorld(w)
    ensures ReadsAgree(Tables(w))
  {
    InitStructure(w);
    assert Tables(w) == w;
  }

  // ---- the recovery itself ----

  /** A log record: a batch with the sequence of its first operation. */
  datatype Logged = Logged(first: nat, batch: Batch)

  ghost function RecordEntries(r: Logged): set<Entry>
    requires r.first > 0
  { BatchEntries(r.batch, r.first - 1) }

  /** Batches take consecutive sequences. */
  ghost predicate LogOk(rs: seq<Logged>) {
    && (forall i :: 0 <= i < |rs| ==> rs[i].first > 0)
    && forall i, j :: 0 <= i < j < |rs| ==> rs[i].first + |rs[i].batch| <= rs[j].first
  }

  ghost function LogEntries(rs: seq<Logged>): set<Entry>
    requires LogOk(rs)
  {
    set i, e | 0 <= i < |rs| && e in RecordEntries(rs[i]) :: e
  }

  /** The entries have sequences below `end`, and not below `start`. */
  ghost predicate Between(es: set<Entry>, start: nat, end: nat) { forall e :: e in es ==> start <= e.sequence < end }

  lemma RecordBetween(r: Logged)
    requires r.first > 0
    ensures Between(RecordEntries(r), r.first, r.first + |r.batch|)
  {
  }

  lemma OneMoreRecord(rs: seq<Logged>, i: nat)
    requires LogOk(rs) && i < |rs|
    ensures LogOk(rs[..i]) && LogOk(rs[..i + 1])
            && LogEntries(rs[..i + 1]) == LogEntries(rs[..i]) + RecordEntries(rs[i])
    ensures forall e :: e in LogEntries(rs[..i]) ==> e.sequence < rs[i].first
  {
    hide BatchEntries;
    var less, more := rs[..i], rs[..i + 1];
    forall e ensures e in LogEntries(more) <==> e in LogEntries(less) + RecordEntries(rs[i]) {
      if e in LogEntries(more) {
        var j :| 0 <= j < |more| && e in RecordEntries(more[j]);
        assert j < i ==> more[j] == less[j];
      }
      if e in LogEntries(less) {
        var j :| 0 <= j < |less| && e in RecordEntries(less[j]);
        assert more[j] == less[j];
      }
      assert more[i] == rs[i];
    }
    forall e | e in LogEntries(less) ensures e.sequence < rs[i].first {
      var j :| 0 <= j < |less| && e in RecordEntries(less[j]);
      RecordBetween(less[j]);
    }
  }

  lemma InsertKeeps(all: set<Entry>, files: seq<File>, mem: seq<Entry>, next: nat, end: nat, r: Logged,
                    mem': seq<Entry>)
    requires SoFar(all, files, mem, next, end) && r.first > 0 && forall e :: e in all ==> e.sequence < r.first
    requires Sorted(mem') && Elements(mem') == Elements(mem) + RecordEntries(r)
    ensures SoFar(all + RecordEntries(r), files, mem', next, end)
  {
    RecordBetween(r);
    assert Newer(RecordEntries(r), EntriesOf(Files(files)));
  }

  lemma FlushKeeps(all: set<Entry>, files: seq<File>, mem: seq<Entry>, next: nat, end: nat, size: nat)
    requires SoFar(all, files, mem, next, end)
    ensures mem == [] ==> SoFar(all, files, [], next, end + 1)
    ensures mem != [] ==> SoFar(all, files + [File(end, size, mem)], [], next, end + 1)
  {
    var f := File(end, size, mem);
    var files' := files + [f];
    if mem != [] {
      assert Files(files') == Files(files) + {f};
      EntriesUnion(Files(files), {f});
      assert EntriesOf({f}) == Elements(mem);
      forall i, j | 0 <= i < j < |files'| ensures Newer(Elements(files'[j].entries), Elements(files'[i].entries)) {
        assert files'[i] in Files(files);
        OfFile(Files(files), files[i]);
      }
    }
  }

  /** WriteLevel0Table without a base version: always level 0; an empty memtable leaves no file. */
  method WriteLevel0Table(ghost all: set<Entry>, files: seq<File>, mem: seq<Entry>, ghost next: nat, end: nat,
                          size: nat)
    returns (files': seq<File>)
    requires SoFar(all, files, mem, next, end)
    ensures SoFar(all, files', [], next, end + 1)
    ensures if mem == [] then files' == files else files' == files + [File(end, size, mem)]
  {
    FlushKeeps(all, files, mem, next, end, size);
    files' := if mem == [] then files else files + [File(end, size, mem)];
  }

  /** Records a to b - 1 fill one memtable, up to where it is full or the log ends. */
  ghost predicate FillsOne(n: nat, full: nat -> bool, a: nat, b: nat) {
    && a < b <= n && (a == 0 || full(a - 1)) && (b == n || full(b - 1))
    && forall k :: a <= k < b - 1 ==> !full(k)
  }

  ghost predicate HoldsRecords(records: seq<Logged>, es: seq<Entry>, a: nat, b: nat)
    requires LogOk(records)
  {
    a <= b <= |records| && LogOk(records[a..b]) && Elements(es) == LogEntries(records[a..b])
  }

  /** Each of these tables is one such memtable. */
  ghost predicate CutWhereFull(records: seq<Logged>, full: nat -> bool, tables: seq<File>)
    requires LogOk(records)
  {
    forall f :: f in tables ==>
      exists a, b :: FillsOne(|records|, full, a, b) && HoldsRecords(records, f.entries, a, b)
  }

  lemma OneMoreTable(records: seq<Logged>, full: nat -> bool, tables: seq<File>, f: File, a: nat, b: nat)
    requires LogOk(records) && CutWhereFull(records, full, tables)
    requires FillsOne(|records|, full, a, b) && HoldsRecords(records, f.entries, a, b)
    ensures CutWhereFull(records, full, tables + [f])
  {
    hide FillsOne;
    hide HoldsRecords;
  }

  lemma HoldsNext(records: seq<Logged>, mem: seq<Entry>, a: nat, i: nat, table: seq<Entry>)
    requires LogOk(records) && i < |records| && HoldsRecords(records, mem, a, i)
    requires Elements(table) == Elements(mem) + RecordEntries(records[i])
    ensures HoldsRecords(records, table, a, i + 1)
  {
    hide LogEntries;
    hide RecordEntries;
    LogPart(records, a, i + 1);
    OneMoreRecord(records[a..i + 1], i - a);
    assert records[a..i + 1][..i - a] == records[a..i];
    assert records[a..i + 1][..i - a + 1] == records[a..i + 1];
  }

  lemma HoldsNone(records: seq<Logged>, a: nat, mem: seq<Entry>)
    requires LogOk(records) && a <= |records|
    ensures HoldsRecords(records, [], a, a)
    ensures mem != [] ==> !HoldsRecords(records, mem, a, a)
  {
    if mem != [] { assert mem[0] in Elements(mem); }
  }

  /** After i records, of which those from `since` on are in the memtable. */
  ghost predicate FilledUpto(records: seq<Logged>, full: nat -> bool, i: nat, tables: seq<File>, mem: seq<Entry>,
                             since: nat, compactions: nat)
    requires LogOk(records)
  {
    && since <= i <= |records| && CutWhereFull(records, full, tables) && HoldsRecords(records, mem, since, i)
    && (since == 0 || full(since - 1)) && (forall k :: since <= k < i ==> !full(k))
    && if compactions == 0 then tables == [] && since == 0 else exists k :: 0 <= k < i && full(k)
  }

  lemma FilledFirst(records: seq<Logged>, full: nat -> bool)
    requires LogOk(records)
    ensures FilledUpto(records, full, 0, [], [], 0, 0)
  {
    HoldsNone(records, 0, []);
  }

  /** The tables once the memtable has been written to a file. */
  ghost function Flushed(tables: seq<File>, mem: seq<Entry>, number: nat, size: nat): seq<File> {
    if mem == [] then tables else tables + [File(number, size, mem)]
  }

  lemma FilledNext(records: seq<Logged>, full: nat -> bool, i: nat, tables: seq<File>, mem: seq<Entry>, since: nat,
                   compactions: nat, table: seq<Entry>, number: nat, size: nat)
    requires LogOk(records) && i < |records| && FilledUpto(records, full, i, tables, mem, since, compactions)
    requires Elements(table) == Elements(mem) + RecordEntries(records[i])
    ensures if full(i)
            then FilledUpto(records, full, i + 1, Flushed(tables, table, number, size), [], i + 1, compactions + 1)
            else FilledUpto(records, full, i + 1, tables, table, since, compactions)
  {
    hide HoldsRecords;
    hide CutWhereFull;
    hide RecordEntries;
    HoldsNext(records, mem, since, i, table);
    if full(i) {
      HoldsNone(records, i + 1, table);
      if table != [] { OneMoreTable(records, full, tables, File(number, size, table), since, i + 1); }
    }
  }

  lemma FilledLast(records: seq<Logged>, full: nat -> bool, tables: seq<File>, mem: seq<Entry>, since: nat,
                   compactions: nat, number: nat, size: nat)
    requires LogOk(records) && FilledUpto(records, full, |records|, tables, mem, since, compactions)
    ensures CutWhereFull(records, full, Flushed(tables, mem, number, size)) && CutWhereFull(records, full, tables)
    ensures compactions == 0 <==> forall k :: 0 <= k < |records| ==> !full(k)
    ensures compactions == 0 ==> tables == [] && HoldsRecords(records, mem, 0, |records|)
  {
    hide HoldsRecords;
    hide CutWhereFull;
    HoldsNone(records, |records|, mem);
    if mem != [] { OneMoreTable(records, full, tables, File(number, size, mem), since, |records|); }
  }

  /** RecoverLogFile: tables of what fills the memtable on the way, and one of the rest unless
      the log is used again. */
  method RecoverLogFile(records: seq<Logged>, before: seq<File>, ghost all: set<Entry>, ghost next: nat, start: nat,
                        full: nat -> bool, sizes: nat -> nat, reuse: bool, recorded: nat)
    returns (files: seq<File>, mem: seq<Entry>, end: nat, maxSequence: nat)
    requires LogOk(records) && SoFar(all, before, [], next, start)
    requires forall e, i :: e in all && 0 <= i < |records| ==> e.sequence < records[i].first
    ensures SoFar(all + LogEntries(records), files, mem, next, end) && (!reuse ==> mem == [])
    ensures recorded <= maxSequence && forall e :: e in LogEntries(records) ==> e.sequence <= maxSequence
    ensures maxSequence == recorded || exists r :: r in records && maxSequence == r.first + |r.batch| - 1
    ensures before <= files && CutWhereFull(records, full, files[|before|..])
    ensures if reuse && forall k :: 0 <= k < |records| ==> !full(k)
            then files == before && HoldsRecords(records, mem, 0, |records|) else mem == []
  {
    hide SoFar;
    hide LogEntries;
    hide CutWhereFull;
    hide HoldsRecords;
    hide FilledUpto;
    files, mem, end, maxSequence := before, [], start, recorded;
    var compactions := 0;
    ghost var since: nat := 0;
    ghost var tables: seq<File> := [];
    FilledFirst(records, full);
    NoRecords();
    assert all + LogEntries(records[..0]) == all;
    for i := 0 to |records|
      invariant SoFar(all + LogEntries(records[..i]), files, mem, next, end)
      invariant recorded <= maxSequence && forall e :: e in LogEntries(records[..i]) ==> e.sequence <= maxSequence
      invariant maxSequence == recorded || exists r :: r in records && maxSequence == r.first + |r.batch| - 1
      invariant files == before + tables && FilledUpto(records, full, i, tables, mem, since, compactions)
    {
      var r := records[i];
      OneMoreRecord(records, i);
      RecordBetween(r);
      ghost var known := all + LogEntries(records[..i]);
      MemOf(known, files, mem, next, end);
      assert forall d :: d in mem ==> d in Elements(mem) && d in known;
      var table := InsertInto(r.batch, r.first - 1, mem);
      InsertKeeps(known, files, mem, next, end, r, table);
      assert known + RecordEntries(r) == all + LogEntries(records[..i + 1]);
      FilledNext(records, full, i, tables, mem, since, compactions, table, end, sizes(i));
      mem := table;
      if r.first + |r.batch| - 1 > maxSequence { maxSequence := r.first + |r.batch| - 1; }
      if full(i) {
        compactions := compactions + 1;
        files := WriteLevel0Table(all + LogEntries(records[..i + 1]), files, mem, next, end, sizes(i));
        tables, since := Flushed(tables, mem, end, sizes(i)), i + 1;
        mem, end := [], end + 1;
      }
    }
    assert records[..|records|] == records;
    FilledLast(records, full, tables, mem, since, compactions, end, sizes(|records|));
    if !(reuse && compactions == 0) {
      files := WriteLevel0Table(all + LogEntries(records), files, mem, next, end, sizes(|records|));
      tables := Flushed(tables, mem, end, sizes(|records|));
      mem, end := [], end + 1;
    }
    assert files[|before|..] == tables;
  }

  lemma NoRecords()
    ensures LogOk([]) && LogEntries([]) == {}
  {
  }

  lemma MemOf(all: set<Entry>, files: seq<File>, mem: seq<Entry>, next: nat, end: nat)
    requires SoFar(all, files, mem, next, end)
    ensures Sorted(mem) && Elements(mem) <= all
  {
  }

  lemma ConcatMore(logs: seq<seq<Logged>>, i: nat)
    requires LogOk(Concat(logs)) && i < |logs|
    ensures Concat(logs[..i + 1]) == Concat(logs[..i]) + logs[i]
    ensures LogOk(Concat(logs[..i])) && LogOk(Concat(logs[..i + 1])) && LogOk(logs[i])
    ensures LogEntries(Concat(logs[..i + 1])) == LogEntries(Concat(logs[..i])) + LogEntries(logs[i])
    ensures forall e, k :: e in LogEntries(Concat(logs[..i])) && 0 <= k < |logs[i]| ==> e.sequence < logs[i][k].first
  {
    var a, b, all := Concat(logs[..i]), logs[i], Concat(logs);
    assert logs[..i + 1][..i] == logs[..i];
    PrefixOfConcat(logs, i + 1);
    LogPart(all, 0, |a|);
    LogPart(all, 0, |a + b|);
    LogPart(all, |a|, |a + b|);
    assert all[0..|a|] == a && all[0..|a + b|] == a + b && all[|a|..|a + b|] == b;
    BothEntries(a, b);
  }

  lemma LogPart(rs: seq<Logged>, i: nat, j: nat)
    requires LogOk(rs) && i <= j <= |rs|
    ensures LogOk(rs[i..j])
  {
  }

  lemma {:induction false} PrefixOfConcat(logs: seq<seq<Logged>>, i: nat)
    requires i <= |logs|
    ensures Concat(logs[..i]) <= Concat(logs)
    decreases |logs| - i
  {
    if i < |logs| {
      PrefixOfConcat(logs, i + 1);
      assert logs[..i + 1][..i] == logs[..i];
    } else {
      assert logs[..i] == logs;
    }
  }

  lemma BothEntries(a: seq<Logged>, b: seq<Logged>)
    requires LogOk(a + b) && LogOk(a) && LogOk(b)
    ensures LogEntries(a + b) == LogEntries(a) + LogEntries(b)
    ensures forall e, k :: e in LogEntries(a) && 0 <= k < |b| ==> e.sequence < b[k].first
  {
    forall e ensures e in LogEntries(a + b) <==> e in LogEntries(a) + LogEntries(b) {
      if e in LogEntries(a + b) {
        var i :| 0 <= i < |a + b| && e in RecordEntries((a + b)[i]);
        assert if i < |a| then (a + b)[i] == a[i] else (a + b)[i] == b[i - |a|];
      }
      if e in LogEntries(a) {
        var i :| 0 <= i < |a| && e in RecordEntries(a[i]);
        assert (a + b)[i] == a[i];
      }
      if e in LogEntries(b) {
        var i :| 0 <= i < |b| && e in RecordEntries(b[i]);
        assert (a + b)[|a| + i] == b[i];
      }
    }
    forall e, k | e in LogEntries(a) && 0 <= k < |b| ensures e.sequence < b[k].first {
      var i :| 0 <= i < |a| && e in RecordEntries(a[i]);
      RecordBetween(a[i]);
      assert (a + b)[i] == a[i] && (a + b)[|a| + k] == b[k];
    }
  }

  lemma RecoveryIsNew(levels: seq<seq<File>>, all: set<Entry>, files: seq<File>, mem: seq<Entry>, next: nat, end: nat)
    requires |levels| == NUM_LEVELS && NumbersBelow(levels, next) && SoFar(all, files, mem, next, end)
    ensures ValidEdit(RecoveryEdit(files))
    ensures forall l :: 0 <= l < NUM_LEVELS ==> NewNumbers(Files(levels[l]), RecoveryEdit(files).added, l)
  {
  }

  /** The end of every batch is a sequence that was given out. */
  ghost predicate EndsBy(rs: seq<Logged>, last: nat) { forall r :: r in rs ==> r.first + |r.batch| <= last + 1 }

  /** DBImpl::Recover with the manifest record that Open writes then: all logs in the order
      of their numbers, the last one perhaps used again. */
  method Recover(ghost w: World, levels: seq<seq<File>>, m: Manifest, logs: seq<seq<Logged>>,
                 full: (nat, nat) -> bool, sizes: (nat, nat) -> nat, reuse: bool)
    returns (db: Db, ghost r: Recovery)
    requires Structure(w) && LogsAreNewer(w) && ManifestOk(w, m) && levels == w.db.levels
    requires LogOk(Concat(logs)) && LogEntries(Concat(logs)) <= InLogs(w.db) && EndsBy(Concat(logs), w.db.lastSequence)
    ensures var left := LogEntries(Concat(logs)); var w' := World(db, w.history - InLogs(w.db) + left, w.floor);
            && Reopened(w, m, left, r, w') && Structure(w') && LogsAreNewer(w')
            && Stored(db) == VersionEntries(levels) + left
  {
    hide SoFar;
    hide Structure;
    hide LogsAreNewer;
    hide LogOk;
    hide LogEntries;
    hide EndsBy;
    hide Concat;
    hide InLogs;
    var files: seq<File>, mem: seq<Entry>, end, last := [], [], m.nextFile, m.lastSequence;
    NothingYet(logs, m.nextFile);
    for i := 0 to |logs|
      invariant LogOk(Concat(logs[..i])) && SoFar(LogEntries(Concat(logs[..i])), files, mem, m.nextFile, end)
      invariant i < |logs| ==> mem == []
      invariant m.lastSequence <= last && (forall e :: e in LogEntries(Concat(logs[..i])) ==> e.sequence <= last)
      invariant last <= w.db.lastSequence
    {
      var k: nat := i;
      ConcatMore(logs, i);
      EndOfLog(logs, i, w.db.lastSequence);
      files, mem, end, last := RecoverLogFile(logs[i], files, LogEntries(Concat(logs[..i])), m.nextFile, end,
                                              (n: nat) => full(k, n), (n: nat) => sizes(k, n), reuse
                                                  && i + 1 == |logs|, last);
    }
    assert logs[..|logs|] == logs;
    LevelsAreSorted(w, m);
    RecoveryIsNew(levels, LogEntries(Concat(logs)), files, mem, m.nextFile, end);
    var levels' := LogAndApply(levels, RecoveryEdit(files));
    db := Db(mem, None, levels', last, [], end);
    r := Recovery(files, mem, end);
    ReopenKeepsStructure(w, m, LogEntries(Concat(logs)), r,
                         World(db, w.history - InLogs(w.db) + LogEntries(Concat(logs)), w.floor));
  }

  lemma NothingYet(logs: seq<seq<Logged>>, next: nat)
    ensures Concat(logs[..0]) == [] && LogOk([]) && LogEntries([]) == {} && SoFar({}, [], [], next, next)
  {
    assert Files([]) == {};
  }

  lemma EndOfLog(logs: seq<seq<Logged>>, i: nat, last: nat)
    requires i < |logs| && EndsBy(Concat(logs), last)
    ensures forall r :: r in logs[i] ==> r.first + |r.batch| <= last + 1
  {
    hide Concat;
    ConcatStep(logs, i);
    PrefixOfConcat(logs, i + 1);
    forall r | r in logs[i] ensures r.first + |r.batch| <= last + 1 {
      assert r in Concat(logs[..i]) + logs[i];
      assert r in Concat(logs);
    }
  }

  lemma ConcatStep(logs: seq<seq<Logged>>, i: nat)
    requires i < |logs|
    ensures Concat(logs[..i + 1]) == Concat(logs[..i]) + logs[i]
  {
    assert logs[..i + 1][..i] == logs[..i];
  }

  lemma LevelsAreSorted(w: World, m: Manifest)
    requires Structure(w) && ManifestOk(w, m)
    ensures |w.db.levels| == NUM_LEVELS && (forall l :: 0 <= l < NUM_LEVELS ==> SortedFiles(w.db.levels[l]))
    ensures NumbersBelow(w.db.levels, m.nextFile) && m.lastSequence <= w.db.lastSequence
  {
  }
}
