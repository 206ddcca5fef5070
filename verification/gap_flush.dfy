/** An output around a newcomer, in the code's own steps: CompactRange picks files with a
    gap between them, a memtable flushed meanwhile goes to the output level into that gap,
    and the one output file then lies around it. */
module GapFlush {
  import opened InternalKeys
  import opened Lists
  import opened SnapshotReads
  import opened Versions
  import opened CompactionInputs
  import opened CompactionRules
  import opened CompactionLoop
  import opened VersionBuilder
  import opened VersionSteps
  import opened Database
  import opened DatabaseRuns
  import opened DbImplementation
  import opened CompactionPhases
  import opened LostDeletion
  import opened TableSizes

  const LOW := Entry(1.0, 1, Put("v"))
  const HIGH := Entry(3.0, 2, Put("v"))
  const LOW2 := Entry(1.0, 3, Put("v"))
  const HIGH2 := Entry(3.0, 4, Put("v"))
  const MIDDLE := Entry(2.0, 5, Put("v"))

  function Single(number: nat, e: Entry): File { File(number, 114, [e]) }

  const FLOW := Single(3, LOW)
  const FHIGH := Single(5, HIGH)
  const FLOW2 := Single(7, LOW2)
  const FHIGH2 := Single(9, HIGH2)
  const FMIDDLE := Single(12, MIDDLE)
  const OUT := File(11, 127, [LOW2, HIGH2])

  const GAP := Compaction(1, [FLOW2, FHIGH2], [FLOW, FHIGH], LOW2, HIGH2)

  // ---- one put, flushed at once ----

  function Put1(w: World, k: UserKey): World
    requires w.db.mem == []
  {
    var e := Entry(k, w.db.lastSequence + 1, Put("v"));
    World(w.db.(mem := [e], lastSequence := w.db.lastSequence + 1), w.history + {e}, w.floor)
  }

  function Switched(w: World): World {
    w.(db := w.db.(mem := [], imm := Some(w.db.mem), nextFile := w.db.nextFile + 1))
  }

  function Flushed1(w: World, levels: seq<seq<File>>): World {
    w.(db := w.db.(imm := None, levels := levels, nextFile := w.db.nextFile + 1))
  }

  lemma PutStep(w: World, k: UserKey)
    requires Structure(w) && w.db.mem == [] && w.db.lastSequence + 1 < MAX_SEQUENCE
    ensures Steps(w, Write([(k, Put("v"))]), Put1(w, k)) && Structure(Put1(w, k))
  {
    var batch: Batch, e := [(k, Put("v"))], Entry(k, w.db.lastSequence + 1, Put("v"));
    assert BatchEntry(batch, w.db.lastSequence, 0) == e;
    assert BatchEntries(batch, w.db.lastSequence) == {e};
    assert Elements([e]) == Elements([]) + {e};
    OneStep(w, Write(batch), Put1(w, k));
  }

  lemma SwitchedStep(w: World)
    requires Structure(w) && w.db.imm == None
    ensures Steps(w, SwitchMemTable, Switched(w)) && Structure(Switched(w))
  {
    OneStep(w, SwitchMemTable, Switched(w));
  }

  lemma Flushed1Step(w: World, e: Entry, level: nat, levels: seq<seq<File>>)
    requires Structure(w) && w.db.imm == Some([e])
    requires SearchableLevels(w.db.levels) && ValidFile(Single(w.db.nextFile, e))
    requires LevelAllowed(w.db.levels, Single(w.db.nextFile, e), level)
    requires Edited(w.db.levels, FlushEdit(level, Single(w.db.nextFile, e)), levels)
    ensures Steps(w, FlushMemTable(level, 114), Flushed1(w, levels)) && Structure(Flushed1(w, levels))
  {
    assert level < NUM_LEVELS;
    OneStep(w, FlushMemTable(level, 114), Flushed1(w, levels));
  }

  // ---- where the code sends each flush ----

  lemma TwoLevels(l1: seq<File>, l2: seq<File>)
    requires SortedFiles(l1) && SortedFiles(l2) && Disjoint(Files(l1)) && Disjoint(Files(l2))
    ensures SearchableLevels(Levels(l1, l2))
  {
    var levels := Levels(l1, l2);
    assert Files([]) == {};
    assert forall l :: 0 <= l < 7 ==> levels[l] == if l == 1 then l1 else if l == 2 then l2 else [];
  }

  lemma OverlappingMeets(fs: seq<File>, r: Range)
    requires AllValid(fs) && Overlapping(fs, r) != []
    ensures Meets(fs, r)
  {
    assert Overlapping(fs, r)[0] in Overlapping(fs, r);
  }

  lemma NothingMet(fs: seq<File>, f: File)
    requires AllValid(fs) && ValidFile(f) && !Meets(fs, UserRange(Smallest(f), Largest(f)))
    ensures Overlapping(fs, UserRange(Smallest(f), Largest(f))) == [] && !UserOverlap(Files(fs), f)
  {
    var r := UserRange(Smallest(f), Largest(f));
    if Overlapping(fs, r) != [] { OverlappingMeets(fs, r); }
    forall g | g in Files(fs) ensures UserApart(f, g) { assert g in fs && !Overlaps(g, r); }
  }

  lemma FlushTo2(l1: seq<File>, l2: seq<File>, f: File)
    requires SearchableLevels(Levels(l1, l2)) && ValidFile(f)
    requires SortedFiles(l1) && SortedFiles(l2)
    requires !Meets(l1, UserRange(Smallest(f), Largest(f))) && !Meets(l2, UserRange(Smallest(f), Largest(f)))
    ensures LevelAllowed(Levels(l1, l2), f, 2) && FlushLevel(Levels(l1, l2), f, GRANDPARENT_LIMIT) == 2
  {
    var levels := Levels(l1, l2);
    NothingMet(l1, f);
    NothingMet(l2, f);
    assert levels[0] == [] && levels[1] == l1 && levels[2] == l2 && levels[3] == [] && Files([]) == {};
    assert Deepened(levels, f, 2, GRANDPARENT_LIMIT) == 2;
    assert Deepened(levels, f, 1, GRANDPARENT_LIMIT) == 2;
  }

  lemma FlushTo1(l1: seq<File>, l2: seq<File>, f: File)
    requires SearchableLevels(Levels(l1, l2)) && ValidFile(f)
    requires SortedFiles(l1) && SortedFiles(l2) && TotalFileSize(l2) <= GRANDPARENT_LIMIT
    requires !Meets(l1, UserRange(Smallest(f), Largest(f))) && Meets(l2, UserRange(Smallest(f), Largest(f)))
    ensures LevelAllowed(Levels(l1, l2), f, 1) && FlushLevel(Levels(l1, l2), f, GRANDPARENT_LIMIT) == 1
  {
    hide Overlapping;
    hide TotalFileSize;
    var levels, r := Levels(l1, l2), UserRange(Smallest(f), Largest(f));
    NothingMet(l1, f);
    OverlappingSize(l2, r);
    assert levels[0] == [] && levels[1] == l1 && levels[2] == l2 && Files([]) == {};
    assert Deepened(levels, f, 1, GRANDPARENT_LIMIT) == 1;
  }

  // ---- the run ----

  const V0 := W0
  const V1 := Flushed1(Switched(Put1(V0, 1.0)), Levels([], [FLOW]))
  const V2 := Flushed1(Switched(Put1(V1, 3.0)), Levels([], [FLOW, FHIGH]))
  const V3 := Flushed1(Switched(Put1(V2, 1.0)), Levels([FLOW2], [FLOW, FHIGH]))
  const V4 := Flushed1(Switched(Put1(V3, 3.0)), Levels([FLOW2, FHIGH2], [FLOW, FHIGH]))
  const V5 := Put1(V4, 2.0)
  const V6 := Switched(V5)
  const V7 := V6.(db := V6.db.(nextFile := 12))
  const V8 := Flushed1(V7, Levels([FLOW2, FHIGH2], [FLOW, FMIDDLE, FHIGH]))
  const V9 := World(V8.db.(levels := Levels([], [OUT, FMIDDLE])), V8.history, 4)

  const BEGUN := Running(GAP, 4, V4.db, {})
  const OPENED := Running(GAP, 4, V4.db, {11})

  function Idle(w: World): Phase { Phase(w, None) }

  function Phases(): seq<Phase> {
    [Idle(V0), Idle(Put1(V0, 1.0)), Idle(Switched(Put1(V0, 1.0))),
     Idle(V1), Idle(Put1(V1, 3.0)), Idle(Switched(Put1(V1, 3.0))),
     Idle(V2), Idle(Put1(V2, 1.0)), Idle(Switched(Put1(V2, 1.0))),
     Idle(V3), Idle(Put1(V3, 3.0)), Idle(Switched(Put1(V3, 3.0))),
     Idle(V4), Phase(V4, Some(BEGUN)), Phase(V5, Some(BEGUN)), Phase(V6, Some(BEGUN)), Phase(V7, Some(OPENED)),
     Phase(V8, Some(OPENED)), Idle(V9)]
  }

  function PhaseActs(): seq<PhaseAction> {
    [Meanwhile(Write([(1.0, Put("v"))])), Meanwhile(SwitchMemTable), Meanwhile(FlushMemTable(2, 114)),
     Meanwhile(Write([(3.0, Put("v"))])), Meanwhile(SwitchMemTable), Meanwhile(FlushMemTable(2, 114)),
     Meanwhile(Write([(1.0, Put("v"))])), Meanwhile(SwitchMemTable), Meanwhile(FlushMemTable(1, 114)),
     Meanwhile(Write([(3.0, Put("v"))])), Meanwhile(SwitchMemTable), Meanwhile(FlushMemTable(1, 114)),
     Begin(GAP), Meanwhile(Write([(2.0, Put("v"))])), Meanwhile(SwitchMemTable), OpenOutput,
     Meanwhile(FlushMemTable(2, 114)), Install([OUT])]
  }

  ghost predicate PhaseSteps(p: Phase, a: PhaseAction, p': Phase) {
    SearchableLevels(p.w.db.levels) && PhaseStep(p, a, p')
  }

  lemma FilesAlone()
    ensures ValidFile(FLOW) && ValidFile(FHIGH) && ValidFile(FLOW2) && ValidFile(FHIGH2) && ValidFile(FMIDDLE)
            && ValidFile(OUT)
    ensures SortedFiles([]) && SortedFiles([FLOW]) && SortedFiles([FLOW, FHIGH]) && SortedFiles([FLOW2])
            && SortedFiles([FLOW2, FHIGH2])
    ensures SortedFiles([FLOW, FMIDDLE, FHIGH]) && SortedFiles([OUT, FMIDDLE])
  {
  }

  lemma ApartHere()
    ensures Disjoint(Files([])) && Disjoint(Files([FLOW])) && Disjoint(Files([FLOW, FHIGH]))
    ensures Disjoint(Files([FLOW2])) && Disjoint(Files([FLOW2, FHIGH2]))
  {
    FilesAlone();
    assert Before(Largest(FLOW), Smallest(FHIGH)) && Before(Largest(FLOW2), Smallest(FHIGH2));
  }

  /** A put with its flush, from an empty memtable. */
  lemma Cycle(w: World, k: UserKey, level: nat, levels: seq<seq<File>>)
    requires Structure(w) && w.db.mem == [] && w.db.imm == None && w.db.lastSequence + 1 < MAX_SEQUENCE
    requires SearchableLevels(w.db.levels)
    requires var f := Single(w.db.nextFile + 1, Entry(k, w.db.lastSequence + 1, Put("v")));
             ValidFile(f) && LevelAllowed(w.db.levels, f, level) && Edited(w.db.levels, FlushEdit(level, f), levels)
    ensures Steps(w, Write([(k, Put("v"))]), Put1(w, k))
    ensures Steps(Put1(w, k), SwitchMemTable, Switched(Put1(w, k)))
    ensures Steps(Switched(Put1(w, k)), FlushMemTable(level, 114), Flushed1(Switched(Put1(w, k)), levels))
    ensures Structure(Flushed1(Switched(Put1(w, k)), levels))
  {
    hide Structure;
    hide Steps;
    hide Edited;
    hide LevelAllowed;
    hide FlushEdit;
    PutStep(w, k);
    SwitchedStep(Put1(w, k));
    Flushed1Step(Switched(Put1(w, k)), Entry(k, w.db.lastSequence + 1, Put("v")), level, levels);
  }

  /** Adding one file to one of the two levels. */
  lemma EditTwo(l1: seq<File>, l2: seq<File>, f: File, level: nat, l1': seq<File>, l2': seq<File>)
    requires SortedFiles(l1') && SortedFiles(l2')
    requires (level == 1 && Files(l1') == Files(l1) + {f} && l2' == l2)
             || (level == 2 && l1' == l1 && Files(l2') == Files(l2) + {f})
    ensures Edited(Levels(l1, l2), FlushEdit(level, f), Levels(l1', l2'))
  {
    hide SortedFiles;
    hide NextFiles;
    assert SortedFiles([]) by { FilesAlone(); }
    forall l | 0 <= l < NUM_LEVELS
      ensures SortedFiles(Levels(l1', l2')[l])
              && Files(Levels(l1', l2')[l]) == NextFiles(Files(Levels(l1, l2)[l]), FlushEdit(level, f), l)
    {
      FlushEditAtLevel(Levels(l1, l2), f, level, l);
    }
  }

  lemma ToLow()
    ensures Structure(V1) && Steps(V0, Write([(1.0, Put("v"))]), Put1(V0, 1.0))
    ensures Steps(Put1(V0, 1.0), SwitchMemTable, Switched(Put1(V0, 1.0)))
    ensures Steps(Switched(Put1(V0, 1.0)), FlushMemTable(2, 114), V1)
  {
    hide Structure;
    hide Steps;
    hide Edited;
    hide LevelAllowed;
    hide FlushLevel;
    hide FlushEdit;
    hide SortedFiles;
    hide SearchableLevels;
    hide Disjoint;
    Start();
    FilesAlone();
    ApartHere();
    TwoLevels([], []);
    FlushTo2([], [], FLOW);
    EditTwo([], [], FLOW, 2, [], [FLOW]);
    Cycle(V0, 1.0, 2, Levels([], [FLOW]));
  }

  lemma ToHigh()
    ensures Structure(V2) && Steps(V1, Write([(3.0, Put("v"))]), Put1(V1, 3.0))
    ensures Steps(Put1(V1, 3.0), SwitchMemTable, Switched(Put1(V1, 3.0)))
    ensures Steps(Switched(Put1(V1, 3.0)), FlushMemTable(2, 114), V2)
  {
    hide Structure;
    hide Steps;
    hide Edited;
    hide LevelAllowed;
    hide FlushLevel;
    hide FlushEdit;
    hide SortedFiles;
    hide SearchableLevels;
    hide Disjoint;
    ToLow();
    FilesAlone();
    ApartHere();
    TwoLevels([], [FLOW]);
    FlushTo2([], [FLOW], FHIGH);
    assert Files([FLOW, FHIGH]) == Files([FLOW]) + {FHIGH};
    EditTwo([], [FLOW], FHIGH, 2, [], [FLOW, FHIGH]);
    Cycle(V1, 3.0, 2, Levels([], [FLOW, FHIGH]));
  }

  lemma SizeHere()
    ensures TotalFileSize([FLOW, FHIGH]) <= GRANDPARENT_LIMIT
  {
    OneFileMore([], FLOW);
    OneFileMore([FLOW], FHIGH);
    assert [] + [FLOW] == [FLOW] && [FLOW] + [FHIGH] == [FLOW, FHIGH];
  }

  lemma ToLow2()
    ensures Structure(V3) && Steps(V2, Write([(1.0, Put("v"))]), Put1(V2, 1.0))
    ensures Steps(Put1(V2, 1.0), SwitchMemTable, Switched(Put1(V2, 1.0)))
    ensures Steps(Switched(Put1(V2, 1.0)), FlushMemTable(1, 114), V3)
  {
    hide Structure;
    hide Steps;
    hide Edited;
    hide LevelAllowed;
    hide FlushLevel;
    hide FlushEdit;
    hide SortedFiles;
    hide SearchableLevels;
    hide Disjoint;
    ToHigh();
    FilesAlone();
    ApartHere();
    SizeHere();
    TwoLevels([], [FLOW, FHIGH]);
    assert Overlaps(FLOW, UserRange(LOW2, LOW2));
    FlushTo1([], [FLOW, FHIGH], FLOW2);
    EditTwo([], [FLOW, FHIGH], FLOW2, 1, [FLOW2], [FLOW, FHIGH]);
    Cycle(V2, 1.0, 1, Levels([FLOW2], [FLOW, FHIGH]));
  }

  lemma ToHigh2()
    ensures Structure(V4) && Steps(V3, Write([(3.0, Put("v"))]), Put1(V3, 3.0))
    ensures Steps(Put1(V3, 3.0), SwitchMemTable, Switched(Put1(V3, 3.0)))
    ensures Steps(Switched(Put1(V3, 3.0)), FlushMemTable(1, 114), V4)
  {
    hide Structure;
    hide Steps;
    hide Edited;
    hide LevelAllowed;
    hide FlushLevel;
    hide FlushEdit;
    hide SortedFiles;
    hide SearchableLevels;
    hide Disjoint;
    ToLow2();
    FilesAlone();
    ApartHere();
    SizeHere();
    TwoLevels([FLOW2], [FLOW, FHIGH]);
    assert Overlaps(FHIGH, UserRange(HIGH2, HIGH2));
    FlushTo1([FLOW2], [FLOW, FHIGH], FHIGH2);
    assert Files([FLOW2, FHIGH2]) == Files([FLOW2]) + {FHIGH2};
    EditTwo([FLOW2], [FLOW, FHIGH], FHIGH2, 1, [FLOW2, FHIGH2], [FLOW, FHIGH]);
    Cycle(V3, 3.0, 1, Levels([FLOW2, FHIGH2], [FLOW, FHIGH]));
  }

  // ---- the compaction with the gap ----

  /** What CompactRange takes when it is asked for everything. */
  lemma AllTaken(fs: seq<File>, r: Range)
    requires AllValid(fs) && r == Range(None, None)
    ensures Overlapping(fs, r) == fs
  {
    if fs != [] {
      AllTaken(fs[..|fs| - 1], r);
      assert fs == fs[..|fs| - 1] + [fs[|fs| - 1]];
    }
  }

  lemma GapTaken()
    ensures AllValid([FLOW2, FHIGH2]) && Overlapping([FLOW2, FHIGH2], Range(None, None)) == GAP.inputs0
            && ValidFile(OUT)
    ensures !Before(Largest(OUT), SeekKey(2.0, 5))
  {
    FilesAlone();
    AllTaken([FLOW2, FHIGH2], Range(None, None));
  }

  lemma BothOverlap()
    ensures ValidFile(FLOW) && ValidFile(FHIGH)
    ensures Overlaps(FLOW, UserRange(LOW2, HIGH2)) && Overlaps(FHIGH, UserRange(LOW2, HIGH2))
  {
    FilesAlone();
  }

  lemma BothMet()
    ensures ValidFile(FLOW) && ValidFile(FHIGH) && Overlapping([FLOW, FHIGH], UserRange(LOW2, HIGH2)) == [FLOW, FHIGH]
  {
    hide Overlaps;
    hide ValidFile;
    FilesAlone();
    BothOverlap();
    var r := UserRange(LOW2, HIGH2);
    assert [FLOW, FHIGH][..1] == [FLOW] && [FLOW][..0] == [];
    assert Overlapping([FLOW], r) == [FLOW];
  }

  lemma GapClosed()
    ensures ClosedInputs(Levels([FLOW2, FHIGH2], [FLOW, FHIGH]), GAP)
  {
    FilesAlone();
    BothMet();
    hide Overlapping;
    var chosen := Files([FLOW2, FHIGH2]);
    assert chosen == {FLOW2, FHIGH2} && chosen - chosen == {};
  }

  lemma GapEntries()
    ensures InputEntries(GAP) == {LOW, HIGH, LOW2, HIGH2}
  {
    assert Files([FLOW2, FHIGH2]) == {FLOW2, FHIGH2} && Files([FLOW, FHIGH]) == {FLOW, FHIGH};
    assert LOW in FLOW.entries && HIGH in FHIGH.entries && LOW2 in FLOW2.entries && HIGH2 in FHIGH2.entries;
  }

  lemma NewestSurvive(base: UserKey -> bool)
    ensures Survivors({LOW, HIGH, LOW2, HIGH2}, 4, base) == {LOW2, HIGH2}
  {
    var inputs := {LOW, HIGH, LOW2, HIGH2};
    assert LOW2 in inputs && HIGH2 in inputs;
    assert HiddenByNewer(inputs, LOW, 4) && HiddenByNewer(inputs, HIGH, 4);
  }

  lemma OutIsKept(levels: seq<seq<File>>)
    requires SearchableLevels(levels)
    ensures OutputsOf(levels, GAP, [OUT], 4)
  {
    assert EntriesList([OUT]) == [[LOW2, HIGH2]];
    ConcatOne([LOW2, HIGH2]);
    hide Concat;
    hide EntriesList;
    hide Survivors;
    hide InputEntries;
    hide SearchableLevels;
    GapEntries();
    NewestSurvive(Base(levels, 1));
    assert Elements([LOW2, HIGH2]) == {LOW2, HIGH2};
  }

  lemma Running4()
    ensures Structure(V5) && Structure(V6) && Structure(V7) && SearchableLevels(V4.db.levels)
    ensures PhaseSteps(Idle(V4), Begin(GAP), Phase(V4, Some(BEGUN)))
    ensures PhaseSteps(Phase(V4, Some(BEGUN)), Meanwhile(Write([(2.0, Put("v"))])), Phase(V5, Some(BEGUN)))
    ensures PhaseSteps(Phase(V5, Some(BEGUN)), Meanwhile(SwitchMemTable), Phase(V6, Some(BEGUN)))
    ensures PhaseSteps(Phase(V6, Some(BEGUN)), OpenOutput, Phase(V7, Some(OPENED)))
  {
    hide Structure;
    hide SearchableLevels;
    hide ClosedInputs;
    ToHigh2();
    GapClosed();
    LevelsSearchable(V4);
    PutStep(V4, 2.0);
    SwitchedStep(V5);
    OneStep(V6, NewFileNumber, V7);
    assert {} + {V6.db.nextFile} == {11};
  }

  /** The flush goes to the output level, as the code decides. */
  lemma IntoTheGap()
    ensures SearchableLevels(V7.db.levels) && Step(V7, FlushMemTable(2, 114), V8) && Structure(V8)
    ensures ValidFile(FMIDDLE) && FlushLevel(V7.db.levels, FMIDDLE, GRANDPARENT_LIMIT) == 2
  {
    hide Structure;
    hide Steps;
    hide Edited;
    hide LevelAllowed;
    hide FlushLevel;
    hide FlushEdit;
    hide SortedFiles;
    hide SearchableLevels;
    hide Disjoint;
    Running4();
    FilesAlone();
    ApartHere();
    TwoLevels([FLOW2, FHIGH2], [FLOW, FHIGH]);
    FlushTo2([FLOW2, FHIGH2], [FLOW, FHIGH], FMIDDLE);
    assert Files([FLOW, FMIDDLE, FHIGH]) == Files([FLOW, FHIGH]) + {FMIDDLE};
    EditTwo([FLOW2, FHIGH2], [FLOW, FHIGH], FMIDDLE, 2, [FLOW2, FHIGH2], [FLOW, FMIDDLE, FHIGH]);
    Flushed1Step(V7, MIDDLE, 2, Levels([FLOW2, FHIGH2], [FLOW, FMIDDLE, FHIGH]));
    assert Steps(V7, FlushMemTable(2, 114), V8);
    OneStepBack(V7, FlushMemTable(2, 114), V8);
  }

  lemma OneStepBack(w: World, a: Action, w': World)
    requires Steps(w, a, w')
    ensures SearchableLevels(w.db.levels) && Step(w, a, w')
  {
  }

  lemma GapFiles()
    ensures Files([FLOW2, FHIGH2]) == {FLOW2, FHIGH2} && Files([FLOW, FHIGH]) == {FLOW, FHIGH} && Files([]) == {}
    ensures Files([FLOW, FMIDDLE, FHIGH]) == {FLOW, FMIDDLE, FHIGH} && Files([OUT, FMIDDLE]) == {OUT, FMIDDLE}
            && Files([OUT]) == {OUT}
  {
  }

  lemma GapNumbers()
    ensures NumberedApart(Levels([FLOW2, FHIGH2], [FLOW, FMIDDLE, FHIGH]), [OUT], 13)
  {
    NumbersUsed(Levels([FLOW2, FHIGH2], [FLOW, FMIDDLE, FHIGH]), [FLOW2, FHIGH2], [FLOW, FMIDDLE, FHIGH]);
  }

  lemma InstallEdit()
    requires NumbersUnique(Levels([FLOW2, FHIGH2], [FLOW, FMIDDLE, FHIGH]))
    ensures Edited(Levels([FLOW2, FHIGH2], [FLOW, FMIDDLE, FHIGH]), CompactionEdit(GAP, [OUT]),
                   Levels([], [OUT, FMIDDLE]))
  {
    hide NumbersUnique;
    hide NumberedApart;
    hide CompactionEdit;
    hide NextFiles;
    hide SortedFiles;
    hide Files;
    FilesAlone();
    GapFiles();
    GapNumbers();
    var levels := Levels([FLOW2, FHIGH2], [FLOW, FMIDDLE, FHIGH]);
    forall l | 0 <= l < NUM_LEVELS
      ensures SortedFiles(Levels([], [OUT, FMIDDLE])[l])
      ensures Files(Levels([], [OUT, FMIDDLE])[l]) == NextFiles(Files(levels[l]), CompactionEdit(GAP, [OUT]), l)
    {
      EditAtLevel(levels, GAP, [OUT], 13, l);
    }
  }

  lemma UniqueHere(w: World)
    requires Structure(w)
    ensures NumbersUnique(w.db.levels)
  {
  }

  lemma Installed()
    ensures InstallStep(Phase(V8, Some(OPENED)), [OUT], Idle(V9)) && SearchableLevels(V8.db.levels)
  {
    hide Structure;
    hide NumbersUnique;
    hide OutputsOf;
    hide Edited;
    hide SearchableLevels;
    hide PhaseSteps;
    Running4();
    OutIsKept(V4.db.levels);
    IntoTheGap();
    UniqueHere(V8);
    LevelsOf(V8);
    InstallEdit();
  }

  lemma WhileIdle(w: World, a: Action, w': World)
    requires Steps(w, a, w') && !a.Compact?
    ensures PhaseSteps(Idle(w), Meanwhile(a), Idle(w'))
  {
    hide SearchableLevels;
    hide Step;
  }

  lemma WriteSwitchFlush(w: World, key: real, level: nat, w': World)
    requires w.db.mem == [] && Steps(w, Write([(key, Put("v"))]), Put1(w, key))
             && Steps(Put1(w, key), SwitchMemTable, Switched(Put1(w, key)))
    requires Steps(Switched(Put1(w, key)), FlushMemTable(level, 114), w')
    ensures PhaseSteps(Idle(w), Meanwhile(Write([(key, Put("v"))])), Idle(Put1(w, key)))
    ensures PhaseSteps(Idle(Put1(w, key)), Meanwhile(SwitchMemTable), Idle(Switched(Put1(w, key))))
    ensures PhaseSteps(Idle(Switched(Put1(w, key))), Meanwhile(FlushMemTable(level, 114)), Idle(w'))
  {
    hide Steps;
    hide PhaseSteps;
    hide Put1;
    hide Switched;
    WhileIdle(w, Write([(key, Put("v"))]), Put1(w, key));
    WhileIdle(Put1(w, key), SwitchMemTable, Switched(Put1(w, key)));
    WhileIdle(Switched(Put1(w, key)), FlushMemTable(level, 114), w');
  }

  lemma GapPhases()
    ensures PhaseSteps(Phase(V7, Some(OPENED)), Meanwhile(FlushMemTable(2, 114)), Phase(V8, Some(OPENED)))
    ensures PhaseSteps(Phase(V8, Some(OPENED)), Install([OUT]), Idle(V9))
  {
    hide SearchableLevels;
    hide Structure;
    hide Step;
    hide InstallStep;
    IntoTheGap();
    Installed();
  }

  lemma NothingInMemory()
    ensures V0.db.mem == V1.db.mem == V2.db.mem == V3.db.mem == []
  {
  }

  lemma PhaseStepAt(i: nat)
    requires i < 18
    ensures PhaseSteps(Phases()[i], PhaseActs()[i], Phases()[i + 1])
  {
    hide Structure;
    hide SearchableLevels;
    hide Steps;
    hide PhaseSteps;
    hide Put1;
    hide Switched;
    NothingInMemory();
    if i < 3 { ToLow(); WriteSwitchFlush(V0, 1.0, 2, V1); }
    else if i < 6 { ToHigh(); WriteSwitchFlush(V1, 3.0, 2, V2); }
    else if i < 9 { ToLow2(); WriteSwitchFlush(V2, 1.0, 1, V3); }
    else if i < 12 { ToHigh2(); WriteSwitchFlush(V3, 3.0, 1, V4); }
    else if i < 16 { Running4(); }
    else { GapPhases(); }
  }

  lemma GapRun()
    ensures PhaseRun(Phases(), PhaseActs())
  {
    Start();
    var ps, acts := Phases(), PhaseActs();
    forall i | 0 <= i < 18 ensures SearchableLevels(ps[i].w.db.levels) && PhaseStep(ps[i], acts[i], ps[i + 1]) {
      PhaseStepAt(i);
      ItsParts(ps[i], acts[i], ps[i + 1]);
    }
  }

  lemma ItsParts(p: Phase, a: PhaseAction, p': Phase)
    requires PhaseSteps(p, a, p')
    ensures SearchableLevels(p.w.db.levels) && PhaseStep(p, a, p')
  {
  }

  /** The output lies around the flushed file. */
  lemma NotApart()
    ensures !SearchableLevels(V9.db.levels)
  {
    FilesAlone();
    var level := V9.db.levels[2];
    assert level == [OUT, FMIDDLE] && OUT in Files(level) && FMIDDLE in Files(level);
    assert !Apart(OUT, FMIDDLE);
  }

  lemma GapStored()
    ensures Stored(V9.db) == {LOW2, HIGH2, MIDDLE}
  {
    var levels, all := Levels([], [OUT, FMIDDLE]), {LOW2, HIGH2, MIDDLE};
    GapFiles();
    assert EntriesOf({OUT, FMIDDLE}) == all by {
      assert LOW2 in OUT.entries && HIGH2 in OUT.entries && MIDDLE in FMIDDLE.entries;
    }
    assert VersionEntries(levels) == all by {
      forall e | e in all ensures e in VersionEntries(levels) { assert e in EntriesOf(Files(levels[2])); }
      forall l | 0 <= l < 7 && l != 2 ensures EntriesOf(Files(levels[l])) == {} { assert levels[l] == []; }
    }
  }

  lemma GapReads()
    ensures LookupRun(OUT.entries, 2.0, 5) == None && ReadAt(Stored(V9.db), 2.0, 5) == Some("v")
  {
    GapStored();
    hide Stored;
    assert SeekIndex([HIGH2], SeekKey(2.0, 5)) == 0;
    assert [LOW2, HIGH2][1..] == [HIGH2];
    assert Newest({LOW2, HIGH2, MIDDLE}, 2.0, 5, MIDDLE);
    ReadNewest({LOW2, HIGH2, MIDDLE}, 2.0, 5, MIDDLE);
  }

  lemma SizesOfFiles()
    ensures forall f :: f in {FLOW, FHIGH, FLOW2, FHIGH2, FMIDDLE, OUT} ==> f.size == FileSizeOf(f.entries)
  {
    forall f | f in {FLOW, FHIGH, FLOW2, FHIGH2, FMIDDLE} ensures f.size == FileSizeOf(f.entries) {
      SpaceOfPut(f.entries[0]);
      TableOne(f.entries[0]);
    }
    SpaceOfPut(LOW2);
    SpaceOfPut(HIGH2);
    TableTwo(LOW2, HIGH2);
  }

  lemma SpaceOfPut(e: Entry)
    requires e.op == Put("v")
    ensures Space(0, e) == 13
  {
  }

  lemma AroundMiddle()
    ensures Enclosing(Phase(V8, Some(OPENED)), Install([OUT]))
  {
    hide Structure;
    FilesAlone();
    GapFiles();
    IntoTheGap();
    LevelsOf(V8);
    assert V8.db.levels[2] == [FLOW, FMIDDLE, FHIGH] && V4.db.levels[2] == [FLOW, FHIGH];
    assert FMIDDLE in Files(V8.db.levels[2]) - Files(V4.db.levels[2]) && OUT in [OUT] && ReachesAround(OUT, FMIDDLE);
  }

  /** From the empty database on: the compaction runs, the code flushes 2.0 into the gap
      of its inputs, and the install leaves two files of level 2 overlapping.  A read of
      2.0 then looks into the wrong one: FindFile stops at the output, which lacks it. */
  lemma GapFlushLosesKey()
    ensures PhaseRun(Phases(), PhaseActs()) && |PhaseActs()| == 18
    ensures V4.db.levels[1] == [FLOW2, FHIGH2] && AllValid(V4.db.levels[1])
            && GAP.inputs0 == Overlapping(V4.db.levels[1], Range(None, None))
    ensures Phases()[16] == Phase(V7, Some(OPENED)) && SearchableLevels(V7.db.levels)
    ensures PhaseActs()[16] == Meanwhile(FlushMemTable(2, 114))
    ensures ValidFile(FMIDDLE) && FlushLevel(V7.db.levels, FMIDDLE, GRANDPARENT_LIMIT) == 2
    ensures Enclosing(Phases()[17], PhaseActs()[17]) && Phases()[18] == Idle(V9) && !SearchableLevels(V9.db.levels)
    ensures V9.db.levels[2][0] == OUT && ValidFile(OUT) && !Before(Largest(OUT), SeekKey(2.0, 5))
            && LookupRun(OUT.entries, 2.0, 5) == None
    ensures ReadAt(Stored(V9.db), 2.0, 5) == Some("v")
    ensures forall f :: f in {FLOW, FHIGH, FLOW2, FHIGH2, FMIDDLE, OUT} ==> f.size == FileSizeOf(f.entries)
  {
    hide FileSizeOf;
    SizesOfFiles();
    hide Structure;
    hide SearchableLevels;
    hide InstallStep;
    hide PhaseRun;
    hide Step;
    hide FlushLevel;
    hide Stored;
    hide Enclosing;
    hide Overlapping;
    hide LookupRun;
    hide Before;
    IntoTheGap();
    GapTaken();
    NotApart();
    GapReads();
    GapRun();
    AroundMiddle();
  }
}
