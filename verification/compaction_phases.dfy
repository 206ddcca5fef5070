/** A compaction is not one step: while its merge loop runs without the mutex, writers go
    on, snapshots come and go, memtables are switched and flushed
    (DBImpl::DoCompactionWork).  Two things can go wrong at its end.  It can lose a deletion,
    as in the atomic model, which is decided when it begins (`LosesIffBegun`).  And a
    memtable flushed meanwhile into a gap of its inputs can come to lie inside one of its
    outputs (`InstallEncloses`), which the outputs show before they are installed.  Nothing
    else can, over every run (`PhaseRunReadsIff`).  Every compaction that the code picks itself
    has inputs without gaps (`GapFreeNeverEncloses`); a manual one need not: see GapFlush. */
module CompactionPhases {
  import opened InternalKeys
  import opened SnapshotReads
  import opened Versions
  import opened CompactionInputs
  import opened CompactionRules
  import opened CompactionLoop
  import opened VersionBuilder
  import opened VersionSteps
  import opened Database
  import opened DatabaseRuns
  import opened BoundarySafety

  /** The compaction that runs: its inputs, the smallest_snapshot and the database at its
      start, and the numbers its outputs have got so far. */
  datatype Running = Running(c: Compaction, floor: nat, start: Db, numbers: set<nat>)

  datatype Phase = Phase(w: World, running: Option<Running>)

  datatype PhaseAction =
    | Begin(c: Compaction)
    | OpenOutput
    | Meanwhile(a: Action)
    | Install(outs: seq<File>)

  ghost predicate BeginStep(p: Phase, c: Compaction, p': Phase) {
    && p.running == None && c.level + 1 < NUM_LEVELS && ClosedInputs(p.w.db.levels, c)
    && p' == Phase(p.w, Some(Running(c, SmallestSnapshot(p.w.db), p.w.db, {})))
  }

  ghost predicate OpenStep(p: Phase, p': Phase)
    requires SearchableLevels(p.w.db.levels)
  {
    && p.running.Some? && Step(p.w, NewFileNumber, p'.w)
    && p'.running == Some(p.running.value.(numbers := p.running.value.numbers + {p.w.db.nextFile}))
  }

  /** Anything but another compaction; a single thread does those. */
  ghost predicate MeanwhileStep(p: Phase, a: Action, p': Phase)
    requires SearchableLevels(p.w.db.levels)
  {
    !a.Compact? && (p.running.Some? ==> !a.TrivialMove?) && Step(p.w, a, p'.w) && p'.running == p.running
  }

  /** InstallCompactionResults: what the loop kept, by the snapshots and the version of
      its start, replaces the inputs in the version of now. */
  ghost predicate InstallStep(p: Phase, outs: seq<File>, p': Phase) {
    && p.running.Some? && p'.running == None
    && var r := p.running.value;
      && SearchableLevels(r.start.levels) && OutputsOf(r.start.levels, r.c, outs, r.floor)
      && (forall o :: o in outs ==> o.number in r.numbers)
      && (forall i, j :: 0 <= i < j < |outs| ==> outs[i].number != outs[j].number)
      && p'.w == World(p.w.db.(levels := p'.w.db.levels), p.w.history, r.floor)
      && |p'.w.db.levels| == NUM_LEVELS && |p.w.db.levels| == NUM_LEVELS
      && Edited(p.w.db.levels, CompactionEdit(r.c, outs), p'.w.db.levels)
  }

  ghost predicate PhaseStep(p: Phase, a: PhaseAction, p': Phase)
    requires SearchableLevels(p.w.db.levels)
  {
    match a
    case Begin(c) => BeginStep(p, c, p')
    case OpenOutput => OpenStep(p, p')
    case Meanwhile(b) => MeanwhileStep(p, b, p')
    case Install(outs) => InstallStep(p, outs, p')
  }

  // ---- what holds while a compaction runs ----

  /** The keys of the inputs have data below the output level now if they had at the start. */
  ghost predicate SameBase(version: seq<seq<File>>, levels: seq<seq<File>>, c: Compaction)
    requires SearchableLevels(version) && SearchableLevels(levels)
  {
    forall e :: e in InputEntries(c) ==> (IsBase(version, c.level, e.ukey) <==> IsBase(levels, c.level, e.ukey))
  }

  ghost predicate NumbersTaken(levels: seq<seq<File>>, numbers: set<nat>, next: nat) {
    && (forall n :: n in numbers ==> n < next)
    && forall l, f :: 0 <= l < |levels| && f in levels[l] ==> f.number !in numbers
  }

  /** What was stored at the start for the snapshots up to `floor` is what is stored now. */
  ghost predicate Settled(start: set<Entry>, now: set<Entry>, floor: nat) {
    forall e: Entry :: e.sequence <= floor ==> (e in start <==> e in now)
  }

  ghost predicate ApartFromInputs(c: Compaction, g: File)
    requires AllValid(c.inputs0) && AllValid(c.inputs1) && ValidFile(g)
  {
    forall h :: h in c.inputs0 || h in c.inputs1 ==> UserApart(g, h)
  }

  /** The output level has the files of the start, and new ones without a key of the inputs. */
  ghost predicate OnlyNewcomers(start: seq<File>, now: seq<File>, c: Compaction)
    requires AllValid(c.inputs0) && AllValid(c.inputs1) && AllValid(now)
  {
    Files(start) <= Files(now) && forall g :: g in Files(now) - Files(start) ==> ApartFromInputs(c, g)
  }

  ghost predicate BegunWith(r: Running) {
    r.c.level + 1 < NUM_LEVELS && SearchableLevels(r.start.levels) && ClosedInputs(r.start.levels, r.c)
  }

  /** What is true of the files. */
  ghost predicate FilesOk(levels: seq<seq<File>>, r: Running, next: nat) {
    && BegunWith(r) && SearchableLevels(levels)
    && HeldInputs(levels, r.c) && SameBase(r.start.levels, levels, r.c)
    && OnlyNewcomers(r.start.levels[r.c.level + 1], levels[r.c.level + 1], r.c)
    && NumbersTaken(levels, r.numbers, next)
  }

  ghost predicate RunningOk(w: World, r: Running) {
    && FilesOk(w.db.levels, r, w.db.nextFile) && w.floor <= r.floor <= SmallestSnapshot(w.db)
    && Settled(Stored(r.start), Stored(w.db), r.floor)
  }

  ghost predicate PhaseOk(p: Phase) { Structure(p.w) && (p.running.Some? ==> RunningOk(p.w, p.running.value)) }

  // ---- a flush in the meantime ----

  /** The overlapping files of a sorted list are determined by their set. */
  lemma OverlappingSame(a: seq<File>, b: seq<File>, r: Range)
    requires SortedFiles(a) && SortedFiles(b)
    requires forall f :: f in Files(b) && Overlaps(f, r) <==> f in Files(a) && Overlaps(f, r)
    ensures Overlapping(a, r) == Overlapping(b, r)
  {
    OverlappingOrdered(a, r);
    OverlappingOrdered(b, r);
    forall f ensures f in Files(Overlapping(a, r)) <==> f in Files(Overlapping(b, r)) {
      assert f in a <==> f in Files(a);
      assert f in b <==> f in Files(b);
    }
    SortedUnique(Overlapping(a, r), Overlapping(b, r));
  }

  /** A new file in the input level leaves nothing older there. */
  lemma TakenAfterFlush(fs: seq<File>, c: Compaction, f: File, fs': seq<File>, added: set<File>)
    requires AllValid(fs) && AllValid(fs') && ValidFile(f) && TakenFrom(fs, c)
    requires Newer(Elements(f.entries), EntriesOf(Files(fs))) && added <= {f} && Files(fs') == Files(fs) + added
    ensures TakenFrom(fs', c)
  {
    EntriesUnion(Files(fs) - Files(c.inputs0), {f});
    EntriesMonotone(Files(fs') - Files(c.inputs0), Files(fs) - Files(c.inputs0) + {f});
    EntriesMonotone(Files(c.inputs0), Files(fs));
    assert EntriesOf({f}) == Elements(f.entries);
  }

  /** What a new file at one level leaves of closed inputs. */
  lemma PairAfterFlush(fs: seq<File>, next: seq<File>, c: Compaction, f: File, fs': seq<File>, next': seq<File>,
                       into: nat)
    requires SortedFiles(fs) && SortedFiles(next) && SortedFiles(fs') && SortedFiles(next') && ValidFile(f)
    requires ClosedPair(fs, next, c) && Newer(Elements(f.entries), EntriesOf(Files(fs))) && f !in next
    requires Files(fs') == Files(fs) + (if into == c.level then {f} else {})
    requires Files(next') == Files(next) + (if into == c.level + 1 then {f} else {})
    ensures ClosedPair(fs', next', c) <==> (into == c.level + 1 ==> !Overlaps(f, UserRange(c.smallest, c.largest)))
  {
    var hull := UserRange(c.smallest, c.largest);
    TakenAfterFlush(fs, c, f, fs', if into == c.level then {f} else {});
    if into == c.level + 1 && Overlaps(f, hull) {
      assert f in Files(next') && f in Overlapping(next', hull) && f !in Overlapping(next, hull);
    } else {
      OverlappingSame(next, next', hull);
    }
  }

  /** A flush keeps the inputs of the running compaction closed exactly when its file
      stays clear of their hull on the output level. */
  lemma FlushKeepsInputsIff(levels: seq<seq<File>>, c: Compaction, f: File, level: nat, levels': seq<seq<File>>)
    requires ValidVersion(levels) && c.level + 1 < NUM_LEVELS && ClosedInputs(levels, c)
    requires ValidFile(f) && NumbersBelow(levels, f.number) && Flushed(levels, f, level, levels')
    requires Newer(Elements(f.entries), VersionEntries(levels))
    ensures ClosedInputs(levels', c) <==> (level == c.level + 1 ==> !Overlaps(f, UserRange(c.smallest, c.largest)))
  {
    var fs, next := levels[c.level], levels[c.level + 1];
    LevelFacts(levels, c.level);
    LevelFacts(levels, c.level + 1);
    assert EntriesOf(Files(fs)) <= VersionEntries(levels);
    assert f !in next;
    assert SortedFiles(levels'[c.level]) && SortedFiles(levels'[c.level + 1]);
    PairAfterFlush(fs, next, c, f, levels'[c.level], levels'[c.level + 1], level);
  }

  /** Where the code puts a flush, it has no key of the inputs in the output level. */
  lemma FlushIsApart(levels: seq<seq<File>>, c: Compaction, f: File)
    requires SearchableLevels(levels) && c.level + 1 < NUM_LEVELS && HeldInputs(levels, c) && ValidFile(f)
    requires LevelAllowed(levels, f, c.level + 1)
    ensures ApartFromInputs(c, f)
  {
    InputsWithin(levels, c);
    forall h | h in c.inputs0 || h in c.inputs1 ensures UserApart(f, h) {
      if h in c.inputs0 { assert h in Files(c.inputs0) && h in Files(levels[c.level]); }
      else { assert h in Files(c.inputs1) && h in Files(levels[c.level + 1]); }
    }
  }

  /** The inputs are held over every flush. */
  lemma FlushKeepsHeld(levels: seq<seq<File>>, c: Compaction, f: File, level: nat, levels': seq<seq<File>>)
    requires SearchableLevels(levels) && c.level + 1 < NUM_LEVELS && HeldInputs(levels, c) && ValidFile(f)
    requires LevelAllowed(levels, f, level) && Flushed(levels, f, level, levels')
    requires Newer(Elements(f.entries), VersionEntries(levels))
    ensures HeldInputs(levels', c)
  {
    var fs, next, next' := levels[c.level], levels[c.level + 1], levels'[c.level + 1];
    assert EntriesOf(Files(fs)) <= VersionEntries(levels);
    assert SortedFiles(levels'[c.level]) && SortedFiles(next');
    TakenAfterFlush(fs, c, f, levels'[c.level], if level == c.level then {f} else {});
    if level == c.level + 1 { FlushIsApart(levels, c, f); }
    forall g | g in next' && g !in c.inputs1 ensures OutOfTheWay(c, g) {
      assert g in Files(next');
      if g in Files(next) { assert g in next; }
    }
  }

  lemma FlushKeepsNewcomers(start: seq<File>, levels: seq<seq<File>>, c: Compaction, f: File, level: nat,
                            levels': seq<seq<File>>)
    requires SearchableLevels(levels) && c.level + 1 < NUM_LEVELS && HeldInputs(levels, c) && ValidFile(f)
    requires LevelAllowed(levels, f, level) && Flushed(levels, f, level, levels')
    requires OnlyNewcomers(start, levels[c.level + 1], c)
    ensures AllValid(levels'[c.level + 1]) && OnlyNewcomers(start, levels'[c.level + 1], c)
  {
    assert SortedFiles(levels'[c.level + 1]);
    if level == c.level + 1 { FlushIsApart(levels, c, f); }
  }

  ghost predicate NoNewCover(levels: seq<seq<File>>, levels': seq<seq<File>>, level: nat, k: UserKey)
    requires SearchableLevels(levels) && SearchableLevels(levels')
  {
    forall l, g :: level + 2 <= l < NUM_LEVELS && g in Files(levels'[l]) && Covers(g, k) ==> g in Files(levels[l])
  }

  lemma BaseStays(levels: seq<seq<File>>, levels': seq<seq<File>>, level: nat, k: UserKey)
    requires SearchableLevels(levels) && SearchableLevels(levels') && NoNewCover(levels, levels', level, k)
    requires IsBase(levels, level, k)
    ensures IsBase(levels', level, k)
  {
    forall l, i | level + 2 <= l < NUM_LEVELS && 0 <= i < |levels'[l]| ensures !Covers(levels'[l][i], k) {
      var g := levels'[l][i];
      assert g in Files(levels'[l]);
      if g in Files(levels[l]) {
        var j :| 0 <= j < |levels[l]| && levels[l][j] == g;
        assert !Covers(levels[l][j], k);
      }
    }
  }

  lemma InputPlace(levels: seq<seq<File>>, c: Compaction, e: Entry) returns (l: nat, g: File)
    requires HeldInputs(levels, c) && e in InputEntries(c)
    ensures (l == c.level || l == c.level + 1) && g in Files(levels[l]) && e in g.entries
  {
    InputsWithin(levels, c);
    l := if e in EntriesOf(Files(c.inputs0)) then c.level else c.level + 1;
    g :| g in Files(levels[l]) && e in g.entries;
  }

  /** A new file below the output level covers no key of the inputs. */
  lemma FlushKeepsBase(levels: seq<seq<File>>, c: Compaction, f: File, level: nat, levels': seq<seq<File>>, e: Entry)
    requires SearchableLevels(levels) && SearchableLevels(levels') && c.level + 1 < NUM_LEVELS && HeldInputs(levels, c)
    requires ValidFile(f) && LevelAllowed(levels, f, level) && Flushed(levels, f, level, levels')
    requires e in InputEntries(c)
    ensures IsBase(levels, c.level, e.ukey) <==> IsBase(levels', c.level, e.ukey)
  {
    if level >= c.level + 2 {
      var l, g := InputPlace(levels, c, e);
      assert UserApart(f, g);
      FileBounds(g, e);
      assert !Covers(f, e.ukey);
    }
    assert NoNewCover(levels, levels', c.level, e.ukey) && NoNewCover(levels', levels, c.level, e.ukey);
    if IsBase(levels, c.level, e.ukey) { BaseStays(levels, levels', c.level, e.ukey); }
    if IsBase(levels', c.level, e.ukey) { BaseStays(levels', levels, c.level, e.ukey); }
  }

  lemma FlushedFile(w: World, level: nat, size: nat, w': World) returns (f: File)
    requires Structure(w) && FlushStep(w, level, size, w') && w.db.imm.value != []
    ensures f == File(w.db.nextFile, size, w.db.imm.value) && ValidFile(f) && LevelAllowed(w.db.levels, f, level)
    ensures Flushed(w.db.levels, f, level, w'.db.levels) && Newer(Elements(f.entries), VersionEntries(w.db.levels))
  {
    f := File(w.db.nextFile, size, w.db.imm.value);
    FlushEditFiles(w.db.levels, f, level, w'.db.levels);
  }

  lemma FlushKeepsSameBase(version: seq<seq<File>>, levels: seq<seq<File>>, c: Compaction, f: File, level: nat,
                           levels': seq<seq<File>>)
    requires SearchableLevels(version) && SearchableLevels(levels) && SearchableLevels(levels')
             && SameBase(version, levels, c)
    requires c.level + 1 < NUM_LEVELS && HeldInputs(levels, c) && ValidFile(f)
    requires LevelAllowed(levels, f, level) && Flushed(levels, f, level, levels')
    ensures SameBase(version, levels', c)
  {
    hide HeldInputs;
    hide LevelAllowed;
    hide Flushed;
    forall e | e in InputEntries(c) ensures IsBase(version, c.level, e.ukey) <==> IsBase(levels', c.level, e.ukey) {
      FlushKeepsBase(levels, c, f, level, levels', e);
    }
  }

  lemma FlushKeepsNumbers(levels: seq<seq<File>>, numbers: set<nat>, f: File, level: nat, levels': seq<seq<File>>)
    requires Flushed(levels, f, level, levels') && NumbersTaken(levels, numbers, f.number)
    ensures NumbersTaken(levels', numbers, f.number + 1)
  {
    forall l, g | 0 <= l < NUM_LEVELS && g in levels'[l] ensures g.number !in numbers { assert g in Files(levels'[l]); }
  }

  lemma FlushKeepsFiles(levels: seq<seq<File>>, r: Running, f: File, level: nat, levels': seq<seq<File>>)
    requires FilesOk(levels, r, f.number) && SearchableLevels(levels') && ValidFile(f)
    requires LevelAllowed(levels, f, level) && Flushed(levels, f, level, levels')
    requires Newer(Elements(f.entries), VersionEntries(levels))
    ensures FilesOk(levels', r, f.number + 1)
  {
    hide HeldPair;
    hide OnlyNewcomers;
    hide SameBase;
    hide LevelAllowed;
    hide Flushed;
    hide NumbersTaken;
    FlushKeepsHeld(levels, r.c, f, level, levels');
    FlushKeepsNewcomers(r.start.levels[r.c.level + 1], levels, r.c, f, level, levels');
    FlushKeepsSameBase(r.start.levels, levels, r.c, f, level, levels');
    FlushKeepsNumbers(levels, r.numbers, f, level, levels');
  }

  lemma FlushKeepsRunning(w: World, r: Running, level: nat, size: nat, w': World)
    requires Structure(w) && Structure(w') && RunningOk(w, r) && FlushStep(w, level, size, w')
    ensures RunningOk(w', r)
  {
    hide Files;
    hide NumbersBelow;
    hide Elements;
    hide FilesOk;
    hide Layered;
    hide Recorded;
    hide Flushed;
    hide LevelAllowed;
    hide Settled;
    hide SearchableLevels;
    LevelsOf(w);
    LevelsOf(w');
    FlushKeepsStructure(w, level, size, w');
    if w.db.imm.value != [] {
      var f := FlushedFile(w, level, size, w');
      FlushKeepsFiles(w.db.levels, r, f, level, w'.db.levels);
    } else {
      NumbersGrow(w.db.levels, r, w.db.nextFile);
    }
  }

  lemma NumbersGrow(levels: seq<seq<File>>, r: Running, next: nat)
    requires FilesOk(levels, r, next)
    ensures FilesOk(levels, r, next + 1)
  {
  }

  // ---- everything else that can happen in the meantime ----

  /** Nothing below the last sequence is written any more. */
  lemma MeanwhileSettles(w: World, a: Action, w': World, floor: nat)
    requires Structure(w) && Step(w, a, w') && !a.Compact? && !a.TrivialMove? && floor <= w.db.lastSequence
    ensures Settled(Stored(w.db), Stored(w'.db), floor)
  {
    hide Layered;
    hide Recorded;
    hide Stored;
    match a
    case Write(batch) =>
      WriteKeepsStructure(w, batch, w');
      BatchIsNewest(batch, w.db.lastSequence, {});
    case SwitchMemTable => SwitchKeepsStructure(w, w');
    case FlushMemTable(level, size) => FlushKeepsStructure(w, level, size, w');
    case GetSnapshot => SameLayers(w.db, w'.db);
    case ReleaseSnapshot(i) => SameLayers(w.db, w'.db);
    case NewFileNumber => SameLayers(w.db, w'.db);
  }

  lemma SmallestGrows(w: World, a: Action, w': World)
    requires Structure(w) && Step(w, a, w')
    ensures SmallestSnapshot(w.db) <= SmallestSnapshot(w'.db)
  {
  }

  lemma SettledFurther(start: set<Entry>, now: set<Entry>, next: set<Entry>, floor: nat)
    requires Settled(start, now, floor) && Settled(now, next, floor)
    ensures Settled(start, next, floor)
  {
  }

  lemma OthersKeepFiles(w: World, r: Running, a: Action, w': World)
    requires Structure(w) && RunningOk(w, r) && Step(w, a, w') && !a.Compact? && !a.TrivialMove? && !a.FlushMemTable?
    ensures FilesOk(w'.db.levels, r, w'.db.nextFile) && w'.floor == w.floor
  {
    hide FilesOk;
    if a.SwitchMemTable? || a.NewFileNumber? { NumbersGrow(w.db.levels, r, w.db.nextFile); }
  }

  lemma MeanwhileKeepsRunning(w: World, r: Running, a: Action, w': World)
    requires Structure(w) && Structure(w') && RunningOk(w, r) && Step(w, a, w') && !a.Compact? && !a.TrivialMove?
    ensures RunningOk(w', r)
  {
    hide FilesOk;
    hide Layered;
    hide Settled;
    if a.FlushMemTable? {
      FlushKeepsRunning(w, r, a.level, a.size, w');
    } else {
      OldestIsSmallest(w.db, w.floor);
      MeanwhileSettles(w, a, w', r.floor);
      SettledFurther(Stored(r.start), Stored(w.db), Stored(w'.db), r.floor);
      OthersKeepFiles(w, r, a, w');
      SmallestGrows(w, a, w');
    }
  }

  lemma OpenKeepsRunning(p: Phase, p': Phase)
    requires PhaseOk(p) && Structure(p'.w) && OpenStep(p, p')
    ensures PhaseOk(p')
  {
    hide Layered;
    hide FilesOk;
    SameLevels(p.w, p'.w);
    NumberTaken(p.w.db.levels, p.running.value, p.w.db.nextFile);
  }

  lemma SameLevels(w: World, w': World)
    requires Structure(w) && Step(w, NewFileNumber, w')
    ensures w'.db.levels == w.db.levels && Stored(w'.db) == Stored(w.db)
  {
  }

  lemma NumberTaken(levels: seq<seq<File>>, r: Running, next: nat)
    requires FilesOk(levels, r, next) && NumbersBelow(levels, next)
    ensures FilesOk(levels, r.(numbers := r.numbers + {next}), next + 1)
  {
    hide ClosedInputs;
    hide HeldInputs;
    hide SameBase;
    hide OnlyNewcomers;
    hide SearchableLevels;
    assert BegunWith(r.(numbers := r.numbers + {next}));
  }

  lemma BeginIsOk(p: Phase, c: Compaction, p': Phase)
    requires PhaseOk(p) && BeginStep(p, c, p')
    ensures PhaseOk(p')
  {
    hide Layered;
    hide Recorded;
    hide ClosedPair;
    OldestIsSmallest(p.w.db, p.w.floor);
    LevelsOf(p.w);
    ClosedIsHeld(p.w.db.levels, c);
  }

  // ---- the end of a compaction ----

  lemma SameSurvivors(version: seq<seq<File>>, levels: seq<seq<File>>, c: Compaction, floor: nat)
    requires SearchableLevels(version) && SearchableLevels(levels) && SameBase(version, levels, c)
    ensures Survivors(InputEntries(c), floor, Base(version, c.level))
            == Survivors(InputEntries(c), floor, Base(levels, c.level))
  {
  }

  lemma SameOutputs(levels: seq<seq<File>>, r: Running, next: nat, outs: seq<File>)
    requires FilesOk(levels, r, next) && OutputsOf(r.start.levels, r.c, outs, r.floor)
    ensures OutputsOf(levels, r.c, outs, r.floor)
  {
    hide SearchableLevels;
    hide ClosedInputs;
    hide HeldInputs;
    hide Survivors;
    hide SameBase;
    SameSurvivors(r.start.levels, levels, r.c, r.floor);
  }

  lemma NumbersOfOutputs(levels: seq<seq<File>>, r: Running, next: nat, outs: seq<File>)
    requires FilesOk(levels, r, next) && forall o :: o in outs ==> o.number in r.numbers
    requires forall i, j :: 0 <= i < j < |outs| ==> outs[i].number != outs[j].number
    ensures NumberedApart(levels, outs, next)
  {
  }

  /** What the loop kept by the version of its start it would keep by the one of now; and
      if no flush came into the range, this is a step of the atomic model. */
  lemma InstallIsCompact(p: Phase, outs: seq<File>, p': Phase)
    requires PhaseOk(p) && InstallStep(p, outs, p')
    ensures p.running.Some? && p'.running == None
    ensures var r := p.running.value;
            && InstallCompaction(p.w, r.c, outs, r.floor, p'.w)
            && (CompactStep(p.w, r.c, outs, r.floor, p'.w) <==> ClosedInputs(p.w.db.levels, r.c))
  {
    hide ClosedInputs;
    hide HeldInputs;
    hide OnlyNewcomers;
    hide Settled;
    hide Structure;
    hide SearchableLevels;
    hide Edited;
    hide OutputsOf;
    hide NumberedApart;
    hide SameBase;
    var r := p.running.value;
    SameOutputs(p.w.db.levels, r, p.w.db.nextFile, outs);
    NumbersOfOutputs(p.w.db.levels, r, p.w.db.nextFile, outs);
  }

  /** An output lies around a file that was flushed to the output level since the start. */
  ghost predicate AroundNewcomer(r: Running, levels: seq<seq<File>>, outs: seq<File>)
    requires SearchableLevels(levels)
  {
    && r.c.level + 1 < NUM_LEVELS && |r.start.levels| == NUM_LEVELS
    && exists g, o :: g in Files(levels[r.c.level + 1]) - Files(r.start.levels[r.c.level + 1])
                      && o in outs && ValidFile(o) && ReachesAround(o, g)
  }

  /** What is enclosed is new. */
  lemma EnclosedIsNew(levels: seq<seq<File>>, r: Running, number: nat, outs: seq<File>)
    requires FilesOk(levels, r, number) && ValidFiles(Files(outs)) && EntriesOf(Files(outs)) <= InputEntries(r.c)
    ensures Encloses(levels, r.c, Files(outs)) <==> AroundNewcomer(r, levels, outs)
  {
    hide ClosedInputs;
    hide SameBase;
    hide InputEntries;
    hide Overlaps;
    var c, start, next := r.c, r.start.levels[r.c.level + 1], levels[r.c.level + 1];
    InputsAreOld(r);
    assert Disjoint(Files(next));
    hide SearchableLevels;
    forall g, o | g in Files(next) - Files(c.inputs1) && o in Files(outs) && ReachesAround(o, g)
      ensures g !in Files(start)
    {
      OutputOfInputs(c, Files(outs), o);
      ApartUnlessAround(levels[c.level], next, c, g, o);
    }
    forall g | g in Files(next) - Files(start) ensures g in Files(next) - Files(c.inputs1) {}
    forall o | o in Files(outs) ensures o in outs {}
  }

  /** The inputs of the output level are the files of the start that meet the range. */
  lemma InputsAreOld(r: Running)
    requires BegunWith(r)
    ensures forall g :: g in Files(r.c.inputs1) <==>
              g in Files(r.start.levels[r.c.level + 1]) && Overlaps(g, UserRange(r.c.smallest, r.c.largest))
  {
    var start := r.start.levels[r.c.level + 1];
    forall g
      ensures g in Files(r.c.inputs1) <==> g in Files(start) && Overlaps(g, UserRange(r.c.smallest, r.c.largest))
    {
      assert g in Files(start) <==> g in start;
      assert g in Files(r.c.inputs1) <==> g in r.c.inputs1;
    }
  }

  ghost predicate InstallEncloses(p: Phase, a: PhaseAction)
    requires SearchableLevels(p.w.db.levels)
  {
    a.Install? && p.running.Some? && AroundNewcomer(p.running.value, p.w.db.levels, a.outs)
  }

  /** The exact condition for the structure to survive the end of a compaction. */
  lemma InstallKeepsIff(p: Phase, outs: seq<File>, p': Phase)
    requires PhaseOk(p) && InstallStep(p, outs, p')
    ensures Structure(p'.w) <==> !InstallEncloses(p, Install(outs))
    ensures SearchableLevels(p'.w.db.levels) <==> Structure(p'.w)
  {
    hide Structure;
    hide FilesOk;
    hide InstallCompaction;
    hide Encloses;
    hide AroundNewcomer;
    hide CompactStep;
    hide InstallStep;
    hide Compacted;
    hide FreshOutputs;
    hide ValidFiles;
    hide SearchableLevels;
    InstallIsCompact(p, outs, p');
    var r := p.running.value;
    LevelsOf(p.w);
    InstallStructureIff(p.w, r.c, outs, r.floor, p'.w);
    InstalledFiles(p.w, r.c, outs, r.floor, p'.w);
    AllInputs(InputEntries(r.c), r.floor, Base(p.w.db.levels, r.c.level));
    EnclosedIsNew(p.w.db.levels, r, p.w.db.nextFile, outs);
  }

  lemma AllInputs(inputs: set<Entry>, floor: nat, base: UserKey -> bool)
    ensures Survivors(inputs, floor, base) <= inputs
  {
  }

  // ---- inputs without gaps ----

  lemma MeetsInput(c: Compaction, f: File) returns (h: File)
    requires AllValid(c.inputs0) && AllValid(c.inputs1) && WithoutGaps(c) && ValidFile(f)
    requires IsFirstKey(Files(c.inputs0), c.smallest) && IsLastKey(Files(c.inputs0), c.largest)
    requires Overlaps(f, UserRange(c.smallest, c.largest))
    ensures h in Files(c.inputs0) + Files(c.inputs1) && !UserApart(f, h)
  {
    var fs := Files(c.inputs0) + Files(c.inputs1);
    var first :| first in Files(c.inputs0) && c.smallest == Smallest(first);
    var last :| last in Files(c.inputs0) && c.largest == Largest(last);
    if Smallest(f).ukey <= c.smallest.ukey {
      FileBounds(first, Smallest(first));
      h := first;
    } else {
      assert first in fs && last in fs && Spanned(fs, Smallest(f).ukey);
      h :| h in fs && Covers(h, Smallest(f).ukey);
      FileBounds(f, Smallest(f));
    }
  }

  /** A file without a key of inputs without gaps lies outside their range. */
  lemma NoGapNoRoom(fs: seq<File>, next: seq<File>, c: Compaction, f: File)
    requires AllValid(fs) && AllValid(next) && HeldPair(fs, next, c) && WithoutGaps(c)
    requires ValidFile(f) && ApartFromInputs(c, f)
    ensures !Overlaps(f, UserRange(c.smallest, c.largest))
  {
    if Overlaps(f, UserRange(c.smallest, c.largest)) { var h := MeetsInput(c, f); }
  }

  /** A flush to the output level stays clear of the hull of the first inputs. */
  ghost predicate ClearOf(c: Compaction, db: Db, level: nat, size: nat) {
    db.imm.Some? && db.imm.value != [] && level == c.level + 1 && ValidFile(File(db.nextFile, size, db.imm.value)) ==>
      !Overlaps(File(db.nextFile, size, db.imm.value), UserRange(c.smallest, c.largest))
  }

  /** A compaction by size or by seeks, whose inputs have no gaps (PickStart and
      SetupOtherInputs), needs no care: every flush the code makes is clear of it. */
  lemma GapFreeIsClear(p: Phase, level: nat, size: nat, w': World)
    requires PhaseOk(p) && p.running.Some? && WithoutGaps(p.running.value.c) && FlushStep(p.w, level, size, w')
    ensures ClearOf(p.running.value.c, p.w.db, level, size)
  {
    hide Structure;
    hide Flushed;
    hide FilesOk;
    hide WithoutGaps;
    hide LevelAllowed;
    var r := p.running.value;
    LevelsOf(p.w);
    if p.w.db.imm.value != [] && level == r.c.level + 1 {
      var f := FlushedFile(p.w, level, size, w');
      GapFreeHasNoRoom(p.w.db.levels, r, p.w.db.nextFile, f);
    }
  }

  lemma GapFreeHasNoRoom(levels: seq<seq<File>>, r: Running, number: nat, f: File)
    requires FilesOk(levels, r, number) && WithoutGaps(r.c) && ValidFile(f) && LevelAllowed(levels, f, r.c.level + 1)
    ensures !Overlaps(f, UserRange(r.c.smallest, r.c.largest))
  {
    FlushIsApart(levels, r.c, f);
    NoGapNoRoom(levels[r.c.level], levels[r.c.level + 1], r.c, f);
  }

  /** Its inputs stay closed, so that its end is a step of the atomic model. */
  lemma GapFreeStaysClosed(levels: seq<seq<File>>, r: Running, number: nat)
    requires FilesOk(levels, r, number) && WithoutGaps(r.c)
    ensures ClosedInputs(levels, r.c)
  {
    hide SameBase;
    hide TakenFrom;
    hide NumbersTaken;
    var start, next, hull := r.start.levels[r.c.level + 1], levels[r.c.level + 1], UserRange(r.c.smallest, r.c.largest);
    forall g | g in Files(next) - Files(start) ensures !Overlaps(g, hull) {
      NoGapNoRoom(levels[r.c.level], next, r.c, g);
    }
    OverlappingSame(start, next, hull);
  }

  /** And no output of it lies around anything. */
  lemma GapFreeNeverEncloses(p: Phase, a: PhaseAction, p': Phase)
    requires PhaseOk(p) && SearchableLevels(p.w.db.levels) && PhaseStep(p, a, p')
    requires p.running.Some? && WithoutGaps(p.running.value.c)
    ensures !InstallEncloses(p, a)
  {
    hide Structure;
    hide ClosedInputs;
    hide FilesOk;
    hide InstallEncloses;
    hide InstallCompaction;
    hide InstallStep;
    hide WithoutGaps;
    if a.Install? {
      var r := p.running.value;
      GapFreeStaysClosed(p.w.db.levels, r, p.w.db.nextFile);
      InstallIsCompact(p, a.outs, p');
      CompactKeepsStructure(p.w, r.c, a.outs, r.floor, p'.w);
      InstallKeepsIff(p, a.outs, p');
    } else {
      OnlyInstallEncloses(p, a);
    }
  }

  lemma OnlyInstallEncloses(p: Phase, a: PhaseAction)
    requires SearchableLevels(p.w.db.levels) && !a.Install?
    ensures !InstallEncloses(p, a)
  {
  }

  // ---- every phase step ----

  /** Whatever happens, the structure survives it exactly when no output lies around a
      newcomer; and then the running compaction stays in order. */
  lemma PhaseStepKeepsIff(p: Phase, a: PhaseAction, p': Phase)
    requires PhaseOk(p) && SearchableLevels(p.w.db.levels) && PhaseStep(p, a, p')
    ensures Structure(p'.w) <==> !InstallEncloses(p, a)
    ensures PhaseOk(p') <==> Structure(p'.w)
    ensures SearchableLevels(p'.w.db.levels) <==> Structure(p'.w)
  {
    hide Structure;
    hide RunningOk;
    hide InstallEncloses;
    hide InstallStep;
    hide Step;
    hide SearchableLevels;
    if !a.Install? { OnlyInstallEncloses(p, a); }
    match a {
      case Begin(c) => BeginIsOk(p, c, p');
      case OpenOutput =>
        StepKeepsStructure(p.w, NewFileNumber, p'.w);
        OpenKeepsRunning(p, p');
      case Meanwhile(c) =>
        StepKeepsStructure(p.w, c, p'.w);
        if p.running.Some? { MeanwhileKeepsRunning(p.w, p.running.value, c, p'.w); }
      case Install(outs) =>
        InstallKeepsIff(p, outs, p');
        InstallIsCompact(p, outs, p');
    }
    if Structure(p'.w) { LevelsOf(p'.w); }
  }

  // ---- reads ----

  /** The compaction loses a deletion, by the files, snapshots and sequence of its start. */
  ghost predicate BegunToLose(r: Running) {
    && BegunWith(r) && HeldInputs(r.start.levels, r.c)
    && exists f, g :: LosesDeletion(r.start, r.c, r.floor, f, g)
  }

  lemma SameBoundary(levels: seq<seq<File>>, r: Running, number: nat, f: File, g: File)
    requires FilesOk(levels, r, number) && HeldInputs(r.start.levels, r.c)
    ensures NextBoundary(levels, r.c, f, g) <==> NextBoundary(r.start.levels, r.c, f, g)
  {
    hide SameBase;
    hide TakenFrom;
    hide NumbersTaken;
    hide ClosedInputs;
    hide SearchableLevels;
    var start, next := r.start.levels[r.c.level + 1], levels[r.c.level + 1];
    if f in r.c.inputs1 {
      assert ValidFile(f);
      forall h | h in next && IsBoundary(h, Largest(f)) ensures h in start { BoundaryIsOld(start, next, r.c, f, h); }
      forall h | h in start ensures h in next { assert h in Files(start) && h in Files(next); }
    }
  }

  lemma BoundaryIsOld(start: seq<File>, next: seq<File>, c: Compaction, f: File, h: File)
    requires AllValid(c.inputs0) && AllValid(c.inputs1) && AllValid(next) && OnlyNewcomers(start, next, c)
    requires f in c.inputs1 && h in next && IsBoundary(h, Largest(f))
    ensures h in start
  {
    FileBounds(h, Smallest(h));
    FileBounds(f, Largest(f));
    assert !UserApart(h, f);
    assert h in Files(next) - Files(start) ==> ApartFromInputs(c, h);
  }

  lemma SameNewest(start: set<Entry>, now: set<Entry>, k: UserKey, floor: nat, t: Entry)
    requires Settled(start, now, floor)
    ensures Newest(start, k, floor, t) <==> Newest(now, k, floor, t)
  {
    if Newest(start, k, floor, t) {
      forall e | e in now && Visible(e, k, floor) ensures e.sequence <= t.sequence { assert e in start; }
    }
    if Newest(now, k, floor, t) {
      forall e | e in start && Visible(e, k, floor) ensures e.sequence <= t.sequence { assert e in now; }
    }
  }

  lemma InBoundary(levels: seq<seq<File>>, c: Compaction, f: File, g: File)
    requires HeldInputs(levels, c)
    ensures NextBoundary(levels, c, f, g) ==> f in c.inputs1
  {
  }

  lemma HeldAreValid(levels: seq<seq<File>>, c: Compaction)
    requires HeldInputs(levels, c)
    ensures AllValid(c.inputs1)
  {
  }

  lemma SameLoss(w: World, r: Running, f: File, g: File)
    requires Structure(w) && RunningOk(w, r) && HeldInputs(r.start.levels, r.c)
    ensures LosesDeletion(w.db, r.c, r.floor, f, g) <==> LosesDeletion(r.start, r.c, r.floor, f, g)
  {
    hide ClosedInputs;
    hide HeldInputs;
    hide SearchableLevels;
    hide OnlyNewcomers;
    hide Structure;
    hide Settled;
    hide Newest;
    hide Stored;
    SameBoundary(w.db.levels, r, w.db.nextFile, f, g);
    hide NextBoundary;
    assert NextBoundary(r.start.levels, r.c, f, g) ==> f in r.c.inputs1 by { InBoundary(r.start.levels, r.c, f, g); }
    if f in r.c.inputs1 {
      assert ValidFile(f) by { HeldAreValid(r.start.levels, r.c); }
      assert f in Files(r.c.inputs1) && Largest(f) in f.entries && Largest(f) in InputEntries(r.c);
      forall t ensures Newest(Stored(r.start), Largest(f).ukey, r.floor, t)
                       <==> Newest(Stored(w.db), Largest(f).ukey, r.floor, t)
      { SameNewest(Stored(r.start), Stored(w.db), Largest(f).ukey, r.floor, t); }
    }
  }

  /** Whether a compaction loses a deletion is settled when it begins. */
  lemma LosesIffBegun(w: World, r: Running, outs: seq<File>)
    requires Structure(w) && RunningOk(w, r)
    ensures Loses(w, Compact(r.c, outs, r.floor)) <==> BegunToLose(r)
  {
    hide Structure;
    hide LosesDeletion;
    hide ClosedInputs;
    ClosedIsHeld(r.start.levels, r.c);
    hide HeldInputs;
    LevelsOf(w);
    forall f, g ensures LosesDeletion(w.db, r.c, r.floor, f, g) <==> LosesDeletion(r.start, r.c, r.floor, f, g) {
      SameLoss(w, r, f, g);
    }
  }

  ghost predicate InstallLoses(p: Phase, a: PhaseAction) {
    a.Install? && p.running.Some? && BegunToLose(p.running.value)
  }

  /** A step keeps the agreement of reads exactly when it does not install a compaction
      that began as one losing a deletion. */
  lemma PhaseReadsIff(p: Phase, a: PhaseAction, p': Phase)
    requires PhaseOk(p) && SearchableLevels(p.w.db.levels) && ReadsAgree(p.w) && PhaseStep(p, a, p')
    ensures ReadsAgree(p'.w) <==> !InstallLoses(p, a)
  {
    hide Structure;
    hide ReadsAgree;
    hide Step;
    hide InstallStep;
    hide RunningOk;
    hide BegunToLose;
    hide SafeAction;
    match a
    case Begin(c) =>
    case OpenOutput => OtherReads(p.w, NewFileNumber, p'.w);
    case Meanwhile(b) => OtherReads(p.w, b, p'.w);
    case Install(outs) => InstallReads(p, outs, p');
  }

  lemma OtherReads(w: World, a: Action, w': World)
    requires Structure(w) && ReadsAgree(w) && Step(w, a, w') && !a.Compact?
    ensures ReadsAgree(w')
  {
    hide Structure;
    hide ReadsAgree;
    hide Step;
    hide ResurrectFree;
    StepReadsIff(w, a, w');
  }

  lemma InstallReads(p: Phase, outs: seq<File>, p': Phase)
    requires PhaseOk(p) && ReadsAgree(p.w) && InstallStep(p, outs, p')
    ensures p.running.Some?
    ensures ReadsAgree(p'.w) <==> !BegunToLose(p.running.value)
  {
    var r := p.running.value;
    InstallIsCompact(p, outs, p');
    hide Structure;
    hide ReadsAgree;
    hide InstallStep;
    hide BegunToLose;
    hide SafeAction;
    hide LosesDeletion;
    LosesIffBegun(p.w, r, outs);
    LevelsOf(p.w);
    InstallReadsIff(p.w, r.c, outs, r.floor, p'.w);
    SafeIffNoLoss(p.w, r.c, outs, r.floor);
  }

  // ---- runs ----

  /** Every run.  A step is only defined where the levels can be searched; what follows
      once they cannot be is left open. */
  ghost predicate PhaseRun(ps: seq<Phase>, acts: seq<PhaseAction>) {
    && |ps| == |acts| + 1 && InitWorld(ps[0].w) && ps[0].running == None
    && forall i :: 0 <= i < |acts| && SearchableLevels(ps[i].w.db.levels) ==> PhaseStep(ps[i], acts[i], ps[i + 1])
  }

  ghost predicate Enclosing(p: Phase, a: PhaseAction) { SearchableLevels(p.w.db.levels) && InstallEncloses(p, a) }

  lemma PhaseStepAt(ps: seq<Phase>, acts: seq<PhaseAction>, i: nat)
    requires PhaseRun(ps, acts) && i < |acts| && PhaseOk(ps[i])
    ensures SearchableLevels(ps[i].w.db.levels) && PhaseStep(ps[i], acts[i], ps[i + 1])
    ensures Structure(ps[i + 1].w) <==> !Enclosing(ps[i], acts[i])
    ensures PhaseOk(ps[i + 1]) <==> Structure(ps[i + 1].w)
  {
    hide Structure;
    hide RunningOk;
    hide InstallEncloses;
    hide PhaseStep;
    LevelsOf(ps[i].w);
    PhaseStepKeepsIff(ps[i], acts[i], ps[i + 1]);
  }

  /** As long as no output lies around a newcomer, everything is in order. */
  lemma {:induction false} PhaseRunKeeps(ps: seq<Phase>, acts: seq<PhaseAction>, n: nat)
    requires PhaseRun(ps, acts) && n <= |acts|
    ensures (forall i :: 0 <= i < n ==> !Enclosing(ps[i], acts[i]))
            <==> (forall i :: 0 <= i <= n ==> Structure(ps[i].w))
    ensures (forall i :: 0 <= i < n ==> !Enclosing(ps[i], acts[i])) ==> PhaseOk(ps[n])
  {
    hide Structure;
    hide RunningOk;
    hide InstallEncloses;
    hide PhaseStep;
    if n == 0 {
      InitStructure(ps[0].w);
    } else {
      PhaseRunKeeps(ps, acts, n - 1);
      if PhaseOk(ps[n - 1]) { PhaseStepAt(ps, acts, n - 1); }
    }
  }

  lemma PhaseReadsAt(ps: seq<Phase>, acts: seq<PhaseAction>, i: nat)
    requires PhaseRun(ps, acts) && i < |acts| && PhaseOk(ps[i]) && ReadsAgree(ps[i].w)
    ensures ReadsAgree(ps[i + 1].w) <==> !InstallLoses(ps[i], acts[i])
  {
    hide ReadsAgree;
    hide Structure;
    hide RunningOk;
    hide InstallEncloses;
    hide BegunToLose;
    hide PhaseStep;
    PhaseStepAt(ps, acts, i);
    PhaseReadsIff(ps[i], acts[i], ps[i + 1]);
  }

  /** Every run in which compactions take their time: all its states are in order and read
      as the flat history says exactly when no compaction it installs had begun to lose a
      deletion, and none has an output around a newcomer. */
  lemma PhaseRunReadsIff(ps: seq<Phase>, acts: seq<PhaseAction>)
    requires PhaseRun(ps, acts)
    ensures (forall i :: 0 <= i < |ps| ==> Structure(ps[i].w) && ReadsAgree(ps[i].w))
            <==> (forall i :: 0 <= i < |acts| ==> !Enclosing(ps[i], acts[i]) && !InstallLoses(ps[i], acts[i]))
  {
    hide ReadsAgree;
    hide InstallLoses;
    hide Enclosing;
    hide PhaseStep;
    hide Structure;
    hide RunningOk;
    var good := seq(|ps|, i requires 0 <= i < |ps| => PhaseOk(ps[i]) && ReadsAgree(ps[i].w));
    var safe := seq(|acts|, i requires 0 <= i < |acts| => !Enclosing(ps[i], acts[i]) && !InstallLoses(ps[i], acts[i]));
    InitStructure(ps[0].w);
    forall i | 0 <= i < |acts| && good[i] ensures good[i + 1] <==> safe[i] {
      PhaseStepAt(ps, acts, i);
      PhaseReadsAt(ps, acts, i);
    }
    FirstFailure(good, safe, |acts|);
    forall n | 0 <= n <= |acts| ensures (forall i :: 0 <= i <= n ==> Structure(ps[i].w)) ==> PhaseOk(ps[n]) {
      PhaseRunKeeps(ps, acts, n);
    }
    assert forall i :: 0 <= i < |ps| ==> good[i] == (PhaseOk(ps[i]) && ReadsAgree(ps[i].w));
    assert forall i :: 0 <= i < |acts| ==> safe[i] == (!Enclosing(ps[i], acts[i]) && !InstallLoses(ps[i], acts[i]));
  }
}
