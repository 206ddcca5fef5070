/** A run in which a deleted value comes back: AddBoundaryInputs is not applied to
    the output level, so a compaction can drop a tombstone while the older value it
    hides stays behind in the next file of that level. */
module LostDeletion {
  import opened InternalKeys
  import opened Lists
  import opened SnapshotReads
  import opened Versions
  import opened CompactionInputs
  import opened CompactionRules
  import opened CompactionLoop
  import opened VersionBuilder
  import opened VersionSteps
  import opened Database
  import opened DatabaseRuns
  import opened DbImplementation
  import opened TableSizes

  // The block of A4 is just too small for a full file, and X1 just too small for a block:
  // with D3 behind them both are full.
  const A_VALUE := Text(2_096_000)
  const X_VALUE := Text(4070)

  function Text(n: nat): (v: Value)
    ensures |v| == n
  { seq(n, _ => 'x') }

  const X1 := Entry(1.5, 1, Put(X_VALUE))
  const P2 := Entry(2.0, 2, Put("old"))
  const D3 := Entry(2.0, 3, Delete)
  const A4 := Entry(1.0, 4, Put(A_VALUE))
  const B5 := Entry(1.0, 5, Put("b"))
  const C6 := Entry(1.7, 6, Put("c"))

  const FX := File(3, 4185, [X1])               // the first flush
  const FA := File(5, 2_096_176, [A4, D3, P2])  // the second flush
  const FD := File(6, 2_100_246, [A4, X1, D3])  // both after compaction, in two files
  const FP := File(7, 116, [P2])
  const FB := File(9, 127, [B5, C6])            // the third flush
  const FZ := File(10, 4243, [B5, X1, C6])      // all that is left of it and FD

  function Levels(l1: seq<File>, l2: seq<File>): seq<seq<File>> { [[], l1, l2, [], [], [], []] }

  const C1 := Compaction(1, [FA], [FX], A4, P2)
  const C2 := Compaction(1, [FB], [FD], B5, C6)

  const H1 := {X1}
  const H2 := {X1, P2}
  const H4 := {X1, P2, D3, A4}
  const H6 := {X1, P2, D3, A4, B5, C6}
  const FIRST: Batch := [(1.5, Put(X_VALUE))]
  const OLD: Batch := [(2.0, Put("old"))]
  const DEL: Batch := [(2.0, Delete), (1.0, Put(A_VALUE))]
  const NEW: Batch := [(1.0, Put("b")), (1.7, Put("c"))]

  const W0 := World(Db([], None, Levels([], []), 0, [], 2), {}, 0)
  const W1 := World(Db([X1], None, Levels([], []), 1, [], 2), H1, 0)
  const W2 := World(Db([], Some([X1]), Levels([], []), 1, [], 3), H1, 0)
  const W3 := World(Db([], None, Levels([], [FX]), 1, [], 4), H1, 0)
  const W4 := World(Db([P2], None, Levels([], [FX]), 2, [], 4), H2, 0)
  const W5 := World(Db([P2], None, Levels([], [FX]), 2, [2], 4), H2, 0)
  const W6 := World(Db([A4, D3, P2], None, Levels([], [FX]), 4, [2], 4), H4, 0)
  const W7 := World(Db([], Some([A4, D3, P2]), Levels([], [FX]), 4, [2], 5), H4, 0)
  const W8 := World(Db([], None, Levels([FA], [FX]), 4, [2], 6), H4, 0)
  const W9 := World(Db([], None, Levels([], [FD, FP]), 4, [2], 8), H4, 2)
  const W10 := World(Db([], None, Levels([], [FD, FP]), 4, [], 8), H4, 2)
  const W11 := World(Db([B5, C6], None, Levels([], [FD, FP]), 6, [], 8), H6, 2)
  const W12 := World(Db([], Some([B5, C6]), Levels([], [FD, FP]), 6, [], 9), H6, 2)
  const W13 := World(Db([], None, Levels([FB], [FD, FP]), 6, [], 10), H6, 2)
  const W14 := World(Db([], None, Levels([], [FZ, FP]), 6, [], 11), H6, 6)

  function Worlds(): seq<World> { [W0, W1, W2, W3, W4, W5, W6, W7, W8, W9, W10, W11, W12, W13, W14] }

  function Acts(): seq<Action> {
    [Write(FIRST), SwitchMemTable, FlushMemTable(2, 4185), Write(OLD), GetSnapshot, Write(DEL), SwitchMemTable,
     FlushMemTable(1, 2_096_176), Compact(C1, [FD, FP], 2), ReleaseSnapshot(0), Write(NEW), SwitchMemTable,
     FlushMemTable(1, 127), Compact(C2, [FZ], 6)]
  }

  // ---- what the code decides ----

  const MAX_FILE_SIZE := 2_097_152                 // the default of Options::max_file_size
  const GRANDPARENT_LIMIT := 10 * MAX_FILE_SIZE    // MaxGrandParentOverlapBytes

  /** An output is closed after the entry with which the written blocks reach
      max_file_size, and no earlier; no grandparents stop it before. */
  ghost predicate ClosedWhenFull(outs: seq<File>) {
    forall i :: 0 <= i < |outs| ==>
      && outs[i].size == FileSizeOf(outs[i].entries)
      && (forall n :: 0 <= n < |outs[i].entries| ==> SizeOf(outs[i].entries[..n]) < MAX_FILE_SIZE)
      && (i < |outs| - 1 ==> SizeOf(outs[i].entries) >= MAX_FILE_SIZE)
  }

  /** The code's own decisions at a step: a flush goes to the level that
      PickLevelForMemTableOutput returns; a compaction is the only one that can follow from
      picking `picked`, it is no trivial move, and its outputs are closed when they are full.
      Files have the size that TableBuilder gives them. */
  ghost predicate AsCodeDecides(w: World, a: Action, picked: File)
    requires SearchableLevels(w.db.levels)
  {
    match a
    case FlushMemTable(level, size) =>
      w.db.imm.Some? && ValidFile(File(w.db.nextFile, size, w.db.imm.value)) && size == FileSizeOf(w.db.imm.value)
      && level == FlushLevel(w.db.levels, File(w.db.nextFile, size, w.db.imm.value), GRANDPARENT_LIMIT)
    case Compact(c, outs, floor) =>
      && c.level + 2 < NUM_LEVELS && picked in w.db.levels[c.level] && c.inputs1 != [] && w.db.levels[c.level + 2] == []
      && (forall d: Compaction :: d.level == c.level && ClosedInputs(w.db.levels, d) && picked in d.inputs0 ==> d == c)
      && ClosedWhenFull(outs)
    case TrivialMove(_) => false
    case _ => true
  }

  /** A read of 1.5 looks into the picked file first and then finds X1 below it: enough of
      these use up the picked file's allowed_seeks. */
  ghost predicate PickedBySeeks(levels: seq<seq<File>>, level: nat, picked: File)
    requires SearchableLevels(levels) && level + 1 < NUM_LEVELS
  {
    picked in levels[level] && Covers(picked, 1.5) && LookupRun(picked.entries, 1.5, 1) == None
    && exists g :: g in levels[level + 1] && LookupRun(g.entries, 1.5, 1) == Some(X1)
  }

  // ---- sizes ----

  lemma SpacesHere()
    ensures Space(0, X1) == 4083 && Space(0, A4) == 2_096_014 && Space(0, D3) == 12 && Space(0, P2) == 15
            && Space(1, P2) == 14
    ensures Space(0, B5) == Space(0, C6) == 13
    ensures Repeated(X1, D3) == Repeated(B5, X1) == Repeated(B5, C6) == 0 && Repeated(D3, P2) == 1
    ensures Distinguishable(X1, D3) && Distinguishable(D3, P2) && Distinguishable(B5, X1) && Distinguishable(B5, C6)
  {
    Lengths(4070);
    Lengths(2_096_000);
    assert |X_VALUE| == 4070 && |A_VALUE| == 2_096_000;
  }

  lemma Lengths(n: nat)
    ensures 128 <= n < 16384 ==> VarintLength(n) == 2
    ensures 16384 <= n < 2_097_152 ==> VarintLength(n) == 3
  {
    if n >= 128 { assert VarintLength(n) == 1 + VarintLength(n / 128); }
  }

  lemma FlushedSizes()
    ensures FileSizeOf([X1]) == FX.size && FileSizeOf([A4, D3, P2]) == FA.size && FileSizeOf([B5, C6]) == FB.size
  {
    hide Space;
    hide Repeated;
    hide Distinguishable;
    hide FileSizeOf;
    hide SizeOf;
    hide HandleLength;
    SpacesHere();
    SizesOfHandles();
    TableOne(X1);
    TableTwo(B5, C6);
    TableOneTwo(A4, D3, P2);
  }

  lemma FirstSizes()
    ensures FileSizeOf([A4, X1, D3]) == FD.size && FileSizeOf([P2]) == FP.size
    ensures SizeOf([A4]) == SizeOf([A4, X1]) == 2_096_027 && SizeOf([A4, X1, D3]) == 2_100_135 && SizeOf([]) == 0
  {
    NoPairs();
    assert EncodedAll([]) == [];
    hide Space;
    hide Repeated;
    hide Distinguishable;
    hide FileSizeOf;
    hide HandleLength;
    SpacesHere();
    SizesOfHandles();
    TableOne(P2);
    TableOneTwo(A4, X1, D3);
  }

  lemma SecondSizes()
    ensures FileSizeOf([B5, X1, C6]) == FZ.size && SizeOf([]) == SizeOf([B5]) == 0 && SizeOf([B5, X1]) == 4109
  {
    NoPairs();
    assert EncodedAll([]) == [];
    hide Space;
    hide Repeated;
    hide Distinguishable;
    hide FileSizeOf;
    hide HandleLength;
    SpacesHere();
    SizesOfHandles();
    TableTwoOne(B5, X1, C6);
  }

  lemma SizesOfHandles()
    ensures HandleLength(0, 4091) == HandleLength(0, 4104) == 3 && HandleLength(0, 2_096_022) == 4
    ensures HandleLength(2_096_027, 34) == 4 && HandleLength(2_096_027, 4103) == 5
            && HandleLength(0, 23) == HandleLength(0, 34) == 2
    ensures HandleLength(4109, 21) == 3
  {
    Lengths(4091);
    Lengths(4103);
    Lengths(4104);
    Lengths(4109);
    Lengths(2_096_022);
    Lengths(2_096_027);
  }

  lemma Prefixes<T>(a: T, b: T, d: T)
    ensures [a, b, d][..0] == [] && [a, b, d][..1] == [a] && [a, b, d][..2] == [a, b] && [a][..0] == []
  {
  }

  lemma FirstIsFull()
    ensures ClosedWhenFull([FD, FP])
  {
    hide SizeOf;
    hide FileSizeOf;
    FirstSizes();
    Prefixes(A4, X1, D3);
    Prefixes(P2, P2, P2);
  }

  lemma SecondIsFull()
    ensures ClosedWhenFull([FZ])
  {
    hide SizeOf;
    hide FileSizeOf;
    SecondSizes();
    Prefixes(B5, X1, C6);
  }

  // ---- the pieces ----

  lemma SortedHere()
    ensures Sorted([X1]) && Sorted([P2]) && Sorted([A4, D3, P2]) && Sorted([A4, X1, D3]) && Sorted([B5, C6])
            && Sorted([B5, X1, C6])
    ensures ValidFile(FX) && ValidFile(FA) && ValidFile(FD) && ValidFile(FP) && ValidFile(FB) && ValidFile(FZ)
    ensures SortedFiles([]) && SortedFiles([FX]) && SortedFiles([FA]) && SortedFiles([FB]) && SortedFiles([FD, FP])
            && SortedFiles([FZ, FP])
  {
  }

  lemma BatchesHere()
    ensures BatchEntries(FIRST, 0) == {X1}
    ensures BatchEntries(OLD, 1) == {P2}
    ensures BatchEntries(DEL, 2) == {D3, A4}
    ensures BatchEntries(NEW, 4) == {B5, C6}
  {
    assert BatchEntry(FIRST, 0, 0) == X1;
    assert BatchEntry(OLD, 1, 0) == P2;
    assert BatchEntry(DEL, 2, 0) == D3 && BatchEntry(DEL, 2, 1) == A4;
    assert BatchEntry(NEW, 4, 0) == B5 && BatchEntry(NEW, 4, 1) == C6;
  }

  lemma WritesHere()
    ensures WriteStep(W0, FIRST, W1) && WriteStep(W3, OLD, W4) && WriteStep(W5, DEL, W6) && WriteStep(W10, NEW, W11)
  {
    SortedHere();
    BatchesHere();
    assert Elements([X1]) == Elements([]) + {X1} && Elements([P2]) == Elements([]) + {P2};
    assert Elements([A4, D3, P2]) == Elements([P2]) + {D3, A4};
    assert Elements([B5, C6]) == Elements([]) + {B5, C6};
    assert H1 == {} + {X1} && H2 == H1 + {P2} && H4 == H2 + {D3, A4} && H6 == H4 + {B5, C6};
  }

  lemma FlushEdits(levels: seq<seq<File>>, f: File, level: nat)
    requires |levels| == NUM_LEVELS && level < NUM_LEVELS && levels[level] == [] && SortedFiles([f])
    requires forall l :: 0 <= l < NUM_LEVELS ==> SortedFiles(levels[l])
    ensures Edited(levels, FlushEdit(level, f), levels[level := [f]])
  {
    forall l | 0 <= l < NUM_LEVELS
      ensures SortedFiles(levels[level := [f]][l])
              && Files(levels[level := [f]][l]) == NextFiles(Files(levels[l]), FlushEdit(level, f), l)
    {
      FlushEditAtLevel(levels, f, level, l);
      assert Files([f]) == {f} && Files([]) == {};
    }
  }

  lemma FlushHere(w: World, f: File, level: nat, w': World)
    requires SearchableLevels(w.db.levels) && level < NUM_LEVELS && w.db.levels[level] == [] && SortedFiles([f])
             && ValidFile(f)
    requires w.db.imm == Some(f.entries) && f.number == w.db.nextFile && LevelAllowed(w.db.levels, f, level)
    requires w' == w.(db := w.db.(imm := None, levels := w.db.levels[level := [f]], nextFile := w.db.nextFile + 1))
    ensures FlushStep(w, level, f.size, w')
  {
    FlushEdits(w.db.levels, f, level);
    assert f == File(w.db.nextFile, f.size, w.db.imm.value);
  }

  lemma DisjointHere()
    ensures Disjoint(Files([])) && Disjoint(Files([FX])) && Disjoint(Files([FD, FP]))
  {
    SortedHere();
    FilesHere();
    assert Before(Largest(FD), Smallest(FP));
  }

  /** Into an empty tree a flush goes as deep as it may. */
  lemma FlushDeep()
    ensures SearchableLevels(Levels([], [])) && LevelAllowed(Levels([], []), FX, 2)
    ensures FlushLevel(Levels([], []), FX, GRANDPARENT_LIMIT) == 2
  {
    SortedHere();
    DisjointHere();
    var levels := Levels([], []);
    assert forall l :: 0 <= l < 7 ==> levels[l] == [];
    assert Files([]) == {};
    assert Deepened(levels, FX, 2, GRANDPARENT_LIMIT) == 2;
    assert Deepened(levels, FX, 1, GRANDPARENT_LIMIT) == 2;
  }

  lemma OnlyLevel2(l2: seq<File>)
    requires SortedFiles(l2) && Disjoint(Files(l2))
    ensures SearchableLevels(Levels([], l2)) && AllValid(l2)
  {
    SortedHere();
    DisjointHere();
    var levels := Levels([], l2);
    assert forall l :: 0 <= l < 7 ==> levels[l] == if l == 2 then l2 else [];
  }

  /** With nothing above level 2, a file that meets one there goes to level 1. */
  lemma FlushAbove(l2: seq<File>, g: File, f: File)
    requires SortedFiles(l2) && Disjoint(Files(l2)) && g in l2 && ValidFile(f) && TotalFileSize(l2) <= GRANDPARENT_LIMIT
    requires Overlaps(g, UserRange(Smallest(f), Largest(f)))
    ensures SearchableLevels(Levels([], l2)) && LevelAllowed(Levels([], l2), f, 1)
    ensures FlushLevel(Levels([], l2), f, GRANDPARENT_LIMIT) == 1
  {
    hide Disjoint;
    hide SortedFiles;
    hide SearchableLevels;
    hide Overlapping;
    hide TotalFileSize;
    hide Overlaps;
    hide ValidFile;
    OnlyLevel2(l2);
    NothingAbove(l2, f);
    var levels, r := Levels([], l2), UserRange(Smallest(f), Largest(f));
    assert Meets(levels[2], r);
    OverlappingSize(l2, r);
    assert Deepened(levels, f, 1, GRANDPARENT_LIMIT) == 1;
  }

  lemma NothingAbove(l2: seq<File>, f: File)
    requires SearchableLevels(Levels([], l2)) && ValidFile(f)
    ensures Levels([], l2)[0] == Levels([], l2)[1] == [] && Levels([], l2)[2] == l2
    ensures LevelAllowed(Levels([], l2), f, 1)
  {
    hide SearchableLevels;
    hide ValidFile;
    assert Files([]) == {};
  }

  lemma {:induction false} OverlappingSize(fs: seq<File>, r: Range)
    requires AllValid(fs)
    ensures TotalFileSize(Overlapping(fs, r)) <= TotalFileSize(fs)
    decreases |fs|
  {
    if fs != [] {
      var rest, last := fs[..|fs| - 1], fs[|fs| - 1];
      OverlappingSize(rest, r);
      OneFileMore(rest, last);
      OneFileMore(Overlapping(rest, r), last);
      assert fs == rest + [last];
    }
  }

  lemma FlushSecond()
    ensures SearchableLevels(Levels([], [FX])) && LevelAllowed(Levels([], [FX]), FA, 1)
    ensures FlushLevel(Levels([], [FX]), FA, GRANDPARENT_LIMIT) == 1
  {
    SortedHere();
    DisjointHere();
    OneFileMore([], FX);
    assert [] + [FX] == [FX];
    FlushAbove([FX], FX, FA);
  }

  lemma FlushThird()
    ensures SearchableLevels(Levels([], [FD, FP])) && LevelAllowed(Levels([], [FD, FP]), FB, 1)
    ensures FlushLevel(Levels([], [FD, FP]), FB, GRANDPARENT_LIMIT) == 1
  {
    SortedHere();
    DisjointHere();
    OneFileMore([], FD);
    OneFileMore([FD], FP);
    assert [] + [FD] == [FD] && [FD] + [FP] == [FD, FP];
    FlushAbove([FD, FP], FD, FB);
  }

  lemma CompactHere(w: World, c: Compaction, outs: seq<File>, l2: seq<File>, w': World)
    requires Structure(w) && w.db.levels == Levels(c.inputs0, l2) && c.level == 1
    requires ClosedInputs(w.db.levels, c) && OutputsOf(w.db.levels, c, outs, SmallestSnapshot(w.db))
             && w.floor <= SmallestSnapshot(w.db)
    requires NumberedApart(w.db.levels, outs, w.db.nextFile + |outs|)
    requires |w'.db.levels| == NUM_LEVELS && w'.db.levels == Levels([], w'.db.levels[2])
    requires SortedFiles(w'.db.levels[2]) && Files(w'.db.levels[2]) == Files(l2) - Files(c.inputs1) + Files(outs)
    requires w' == World(w.db.(levels := w'.db.levels, nextFile := w.db.nextFile + |outs|), w.history,
                         SmallestSnapshot(w.db))
    ensures CompactStep(w, c, outs, SmallestSnapshot(w.db), w')
  {
    hide Structure;
    hide SearchableLevels;
    hide NumbersUnique;
    hide ClosedInputs;
    hide HeldInputs;
    hide OutputsOf;
    hide NumberedApart;
    hide SortedFiles;
    hide NextFiles;
    PartsHere(w, c);
    forall l | 0 <= l < NUM_LEVELS
      ensures SortedFiles(w'.db.levels[l]) && Files(w'.db.levels[l])
              == NextFiles(Files(w.db.levels[l]), CompactionEdit(c, outs), l)
    {
      EditHere(c, outs, l2, w'.db.levels[2], w'.db.nextFile, l);
    }
  }

  lemma PartsHere(w: World, c: Compaction)
    requires Structure(w) && ClosedInputs(w.db.levels, c)
    ensures SearchableLevels(w.db.levels) && NumbersUnique(w.db.levels)
    ensures HeldInputs(w.db.levels, c) && Files(c.inputs1) <= Files(w.db.levels[c.level + 1])
  {
    ClosedIsHeld(w.db.levels, c);
    InputsWithin(w.db.levels, c);
  }

  lemma EditHere(c: Compaction, outs: seq<File>, l2: seq<File>, l2': seq<File>, next: nat, l: nat)
    requires c.level == 1 && NumbersUnique(Levels(c.inputs0, l2)) && NumberedApart(Levels(c.inputs0, l2), outs, next)
    requires Files(c.inputs1) <= Files(l2)
    requires SortedFiles(l2') && Files(l2') == Files(l2) - Files(c.inputs1) + Files(outs) && l < NUM_LEVELS
    ensures SortedFiles(Levels([], l2')[l])
    ensures Files(Levels([], l2')[l]) == NextFiles(Files(Levels(c.inputs0, l2)[l]), CompactionEdit(c, outs), l)
  {
    EditAtLevel(Levels(c.inputs0, l2), c, outs, next, l);
    hide CompactionEdit;
    hide NextFiles;
    hide NumbersUnique;
    hide NumberedApart;
    assert Files([]) == {} && Files(c.inputs0) - Files(c.inputs0) == {};
  }

  lemma FilesHere()
    ensures Files([]) == {} && Files([FX]) == {FX} && Files([FA]) == {FA} && Files([FD]) == {FD}
            && Files([FB]) == {FB} && Files([FZ]) == {FZ}
    ensures Files([FD, FP]) == {FD, FP} && Files([FZ, FP]) == {FZ, FP}
    ensures EntriesOf({FX}) == {X1} && EntriesOf({FA}) == {A4, D3, P2} && EntriesOf({FD}) == {A4, X1, D3}
            && EntriesOf({FB}) == {B5, C6}
  {
    assert X1 in FX.entries && A4 in FA.entries && D3 in FA.entries && P2 in FA.entries;
    assert A4 in FD.entries && X1 in FD.entries && D3 in FD.entries && B5 in FB.entries && C6 in FB.entries;
  }

  lemma InputsHere()
    ensures InputEntries(C1) == {A4, D3, P2, X1} && InputEntries(C2) == {B5, C6, A4, X1, D3}
  {
    FilesHere();
  }

  /** A compaction of the only file of its level, with all it meets below: it is closed,
      and no other compaction takes that file. */
  lemma OnlyFile(f: File, next: seq<File>, inputs1: seq<File>)
    requires ValidFile(f) && AllValid(next) && inputs1 == Overlapping(next, UserRange(Smallest(f), Largest(f)))
    ensures var c := Compaction(1, [f], inputs1, Smallest(f), Largest(f));
            && ClosedInputs(Levels([f], next), c)
            && forall d: Compaction :: d.level == 1 && ClosedInputs(Levels([f], next), d) && f in d.inputs0 ==> d == c
  {
    ClosedOne(f, next, inputs1);
    hide ClosedInputs;
    var c, levels := Compaction(1, [f], inputs1, Smallest(f), Largest(f)), Levels([f], next);
    forall d: Compaction | d.level == 1 && ClosedInputs(levels, d) && f in d.inputs0
      ensures d == c
    { OnlyChoice(f, next, d); }
  }

  lemma ClosedOne(f: File, next: seq<File>, inputs1: seq<File>)
    requires ValidFile(f) && AllValid(next) && inputs1 == Overlapping(next, UserRange(Smallest(f), Largest(f)))
    ensures ClosedInputs(Levels([f], next), Compaction(1, [f], inputs1, Smallest(f), Largest(f)))
  {
    hide Overlapping;
    assert Files([f]) == {f} && Files([f]) - Files([f]) == {};
  }

  lemma OnlyChoice(f: File, next: seq<File>, d: Compaction)
    requires ValidFile(f) && AllValid(next) && d.level == 1 && ClosedInputs(Levels([f], next), d)
    ensures d.inputs0 == [f] && d.smallest == Smallest(f) && d.largest == Largest(f)
    ensures d.inputs1 == Overlapping(next, UserRange(Smallest(f), Largest(f)))
  {
    forall i | 0 <= i < |d.inputs0| ensures d.inputs0[i] == f { assert d.inputs0[i] in Files(d.inputs0); }
    SameOnce(d.inputs0, f);
    assert Files(d.inputs0) == {f};
  }

  lemma SameOnce(fs: seq<File>, f: File)
    requires Once(fs) && fs != []
    ensures (forall i :: 0 <= i < |fs| ==> fs[i] == f) ==> fs == [f]
  {
    if |fs| > 1 { assert fs[0] != fs[1]; }
  }

  lemma MetBelow()
    ensures Overlapping([FX], UserRange(A4, P2)) == [FX]
    ensures Overlapping([FD, FP], UserRange(B5, C6)) == [FD]
  {
    SortedHere();
    assert [FD, FP][..1] == [FD] && [FD][..0] == [] && [FX][..0] == [];
    assert !Overlaps(FP, UserRange(B5, C6)) && Overlaps(FD, UserRange(B5, C6)) && Overlaps(FX, UserRange(A4, P2));
    assert Overlapping([FD], UserRange(B5, C6)) == [FD];
  }

  lemma ClosedHere()
    ensures ClosedInputs(Levels([FA], [FX]), C1)
    ensures forall d: Compaction :: d.level == 1 && ClosedInputs(Levels([FA], [FX]), d) && FA in d.inputs0 ==> d == C1
    ensures ClosedInputs(Levels([FB], [FD, FP]), C2)
    ensures forall d: Compaction :: d.level == 1 && ClosedInputs(Levels([FB], [FD, FP]), d) && FB in d.inputs0 ==>
              d == C2
  {
    hide ClosedInputs;
    SortedHere();
    MetBelow();
    OnlyFile(FA, [FX], [FX]);
    OnlyFile(FB, [FD, FP], [FD]);
  }

  lemma SurvivorsHere(base: UserKey -> bool)
    ensures Survivors({A4, D3, P2, X1}, 2, base) == {A4, D3, P2, X1}
    ensures base(2.0) ==> Survivors({B5, C6, A4, X1, D3}, 6, base) == {B5, C6, X1}
  {
    assert HiddenByNewer({B5, C6, A4, X1, D3}, A4, 6) by { assert B5 in {B5, C6, A4, X1, D3}; }
  }

  lemma BaseHere(l1: seq<File>, l2: seq<File>)
    requires SearchableLevels(Levels(l1, l2))
    ensures IsBase(Levels(l1, l2), 1, 2.0)
  {
    assert forall l :: 3 <= l < 7 ==> Levels(l1, l2)[l] == [];
  }

  lemma ConcatOne(a: seq<Entry>)
    ensures Concat([a]) == a
  {
    assert [a][..0] == [];
  }

  lemma ConcatTwo(a: seq<Entry>, b: seq<Entry>)
    ensures Concat([a, b]) == a + b
  {
    ConcatOne(a);
    assert [a, b][..1] == [a];
  }

  lemma FirstCut()
    ensures Sorted(Concat(EntriesList([FD, FP]))) && Elements(Concat(EntriesList([FD, FP]))) == {A4, D3, P2, X1}
  {
    assert EntriesList([FD, FP]) == [[A4, X1, D3], [P2]];
    ConcatTwo([A4, X1, D3], [P2]);
    hide Concat;
    hide EntriesList;
    var all := [A4, X1, D3, P2];
    assert [A4, X1, D3] + [P2] == all;
    assert Elements(all) == {A4, D3, P2, X1};
  }

  lemma SecondCut()
    ensures Sorted(Concat(EntriesList([FZ]))) && Elements(Concat(EntriesList([FZ]))) == {B5, C6, X1}
  {
    SortedHere();
    assert EntriesList([FZ]) == [[B5, X1, C6]];
    ConcatOne([B5, X1, C6]);
    hide Concat;
    hide EntriesList;
    assert Elements([B5, X1, C6]) == {B5, C6, X1};
  }

  lemma OutputsFirst(levels: seq<seq<File>>)
    requires SearchableLevels(levels)
    ensures OutputsOf(levels, C1, [FD, FP], 2)
  {
    hide Survivors;
    hide InputEntries;
    hide Concat;
    hide EntriesList;
    hide SearchableLevels;
    FirstCut();
    InputsHere();
    SurvivorsHere(Base(levels, 1));
  }

  lemma OutputsSecond(levels: seq<seq<File>>)
    requires SearchableLevels(levels) && IsBase(levels, 1, 2.0)
    ensures OutputsOf(levels, C2, [FZ], 6)
  {
    hide Survivors;
    hide InputEntries;
    hide Concat;
    hide EntriesList;
    hide SearchableLevels;
    SecondCut();
    InputsHere();
    SurvivorsHere(Base(levels, 1));
  }

  lemma NumbersHere()
    ensures NumberedApart(Levels([FA], [FX]), [FD, FP], 8) && NumberedApart(Levels([FB], [FD, FP]), [FZ], 11)
  {
    NumbersUsed(Levels([FA], [FX]), [FA], [FX]);
    NumbersUsed(Levels([FB], [FD, FP]), [FB], [FD, FP]);
  }

  lemma NumbersUsed(levels: seq<seq<File>>, l1: seq<File>, l2: seq<File>)
    requires levels == Levels(l1, l2)
    ensures forall l, f :: 0 <= l < 7 && f in levels[l] ==> f in l1 || f in l2
  {
  }

  // ---- the steps ----

  /** A step between two of the worlds, with what its precondition asks for. */
  ghost predicate Steps(w: World, a: Action, w': World) { SearchableLevels(w.db.levels) && Step(w, a, w') }

  /** One more step of the run. */
  lemma OneStep(w: World, a: Action, w': World)
    requires Structure(w) && Step(w, a, w')
    ensures Steps(w, a, w') && Structure(w')
  {
    StepKeepsStructure(w, a, w');
  }

  lemma Start()
    ensures InitWorld(W0) && Structure(W0)
  {
    assert seq(NUM_LEVELS, _ => []) == Levels([], []);
    InitStructure(W0);
  }

  lemma FirstFlush()
    ensures Steps(W0, Write(FIRST), W1) && Steps(W1, SwitchMemTable, W2) && Steps(W2, FlushMemTable(2, 4185), W3)
            && Structure(W3)
  {
    Start();
    WritesHere();
    OneStep(W0, Write(FIRST), W1);
    OneStep(W1, SwitchMemTable, W2);
    FlushX();
    OneStep(W2, FlushMemTable(2, 4185), W3);
  }

  lemma FlushX()
    requires Structure(W2)
    ensures FlushStep(W2, 2, 4185, W3)
  {
    SortedHere();
    FlushDeep();
    hide Structure;
    hide LevelAllowed;
    hide FlushLevel;
    assert Levels([], [])[2 := [FX]] == Levels([], [FX]);
    FlushHere(W2, FX, 2, W3);
  }

  lemma OldAndDeleted()
    ensures Steps(W3, Write(OLD), W4) && Steps(W4, GetSnapshot, W5) && Steps(W5, Write(DEL), W6) && Structure(W6)
  {
    FirstFlush();
    WritesHere();
    OneStep(W3, Write(OLD), W4);
    assert [] + [2] == [2];
    OneStep(W4, GetSnapshot, W5);
    OneStep(W5, Write(DEL), W6);
  }

  lemma SecondFlush()
    ensures Steps(W6, SwitchMemTable, W7) && Steps(W7, FlushMemTable(1, 2_096_176), W8) && Structure(W8)
  {
    OldAndDeleted();
    OneStep(W6, SwitchMemTable, W7);
    FlushA();
    OneStep(W7, FlushMemTable(1, 2_096_176), W8);
  }

  lemma FlushA()
    requires Structure(W7)
    ensures FlushStep(W7, 1, 2_096_176, W8)
  {
    SortedHere();
    FlushSecond();
    hide Structure;
    hide LevelAllowed;
    hide FlushLevel;
    assert Levels([], [FX])[1 := [FA]] == Levels([FA], [FX]);
    FlushHere(W7, FA, 1, W8);
  }

  lemma LevelsSearchable(w: World)
    requires Structure(w)
    ensures SearchableLevels(w.db.levels)
  {
  }

  lemma FirstCompaction()
    ensures Steps(W8, Compact(C1, [FD, FP], 2), W9) && Structure(W9)
  {
    SecondFlush();
    hide Structure;
    hide OutputsOf;
    hide NumberedApart;
    hide ClosedInputs;
    hide SortedFiles;
    hide SearchableLevels;
    LevelsSearchable(W8);
    OutputsFirst(W8.db.levels);
    NumbersHere();
    FirstInstalled();
    CompactHere(W8, C1, [FD, FP], [FX], W9);
    OneStep(W8, Compact(C1, [FD, FP], 2), W9);
  }

  lemma FirstInstalled()
    ensures ClosedInputs(W8.db.levels, C1) && SortedFiles(W9.db.levels[2])
    ensures Files(W9.db.levels[2]) == Files([FX]) - Files(C1.inputs1) + Files([FD, FP])
  {
    hide ClosedInputs;
    hide SortedFiles;
    ClosedHere();
    SortedHere();
    FilesHere();
    hide Files;
  }

  lemma ReleasedAndNew()
    ensures Steps(W9, ReleaseSnapshot(0), W10) && Steps(W10, Write(NEW), W11) && Steps(W11, SwitchMemTable, W12)
            && Structure(W12)
  {
    FirstCompaction();
    WritesHere();
    assert [2][..0] + [2][1..] == [];
    OneStep(W9, ReleaseSnapshot(0), W10);
    OneStep(W10, Write(NEW), W11);
    OneStep(W11, SwitchMemTable, W12);
  }

  lemma ThirdFlush()
    ensures Steps(W12, FlushMemTable(1, 127), W13) && Structure(W13)
  {
    ReleasedAndNew();
    FlushB();
    OneStep(W12, FlushMemTable(1, 127), W13);
  }

  lemma FlushB()
    requires Structure(W12)
    ensures FlushStep(W12, 1, 127, W13)
  {
    SortedHere();
    FlushThird();
    hide Structure;
    hide LevelAllowed;
    hide FlushLevel;
    assert Levels([], [FD, FP])[1 := [FB]] == Levels([FB], [FD, FP]);
    FlushHere(W12, FB, 1, W13);
  }

  lemma SecondCompaction()
    ensures Steps(W13, Compact(C2, [FZ], 6), W14)
  {
    hide Structure;
    hide OutputsOf;
    hide NumberedApart;
    hide ClosedInputs;
    hide IsBase;
    hide SortedFiles;
    hide SearchableLevels;
    hide CompactStep;
    ThirdFlush();
    LevelsSearchable(W13);
    BaseHere([FB], [FD, FP]);
    OutputsSecond(W13.db.levels);
    NumbersHere();
    SecondInstalled();
    CompactHere(W13, C2, [FZ], [FD, FP], W14);
  }

  lemma SecondInstalled()
    ensures ClosedInputs(W13.db.levels, C2) && SortedFiles(W14.db.levels[2])
    ensures Files(W14.db.levels[2]) == Files([FD, FP]) - Files(C2.inputs1) + Files([FZ])
  {
    hide ClosedInputs;
    hide SortedFiles;
    ClosedHere();
    SortedHere();
    FilesHere();
    hide Files;
  }

  lemma StepAt(i: nat)
    requires i < 14
    ensures Steps(Worlds()[i], Acts()[i], Worlds()[i + 1])
  {
    hide Steps;
    hide Structure;
    if i < 3 { FirstFlush(); }
    else if i < 6 { OldAndDeleted(); }
    else if i < 8 { SecondFlush(); }
    else if i < 9 { FirstCompaction(); }
    else if i < 12 { ReleasedAndNew(); }
    else if i < 13 { ThirdFlush(); }
    else { SecondCompaction(); }
  }

  /** The file each compaction starts from. */
  function Picked(i: nat): File { if i <= 8 then FA else FB }

  lemma DecisionAt(i: nat)
    requires i < 14 && SearchableLevels(Worlds()[i].db.levels)
    ensures AsCodeDecides(Worlds()[i], Acts()[i], Picked(i))
    ensures Acts()[i].Compact? ==> PickedBySeeks(Worlds()[i].db.levels, 1, Picked(i))
  {
    hide FileSizeOf;
    hide FlushLevel;
    hide ClosedInputs;
    hide ClosedWhenFull;
    hide PickedBySeeks;
    hide SearchableLevels;
    if i == 2 || i == 7 || i == 12 { FlushDecision(i); }
    if i == 8 { FirstDecision(); }
    if i == 13 { SecondDecision(); }
  }

  lemma FlushDecision(i: nat)
    requires (i == 2 || i == 7 || i == 12) && SearchableLevels(Worlds()[i].db.levels)
    ensures AsCodeDecides(Worlds()[i], Acts()[i], Picked(i))
  {
    hide FileSizeOf;
    hide FlushLevel;
    hide SearchableLevels;
    hide LevelAllowed;
    SortedHere();
    FlushedSizes();
    if i == 2 { FlushDeep(); }
    if i == 7 { FlushSecond(); }
    if i == 12 { FlushThird(); }
  }

  lemma FirstDecision()
    requires SearchableLevels(W8.db.levels)
    ensures AsCodeDecides(W8, Compact(C1, [FD, FP], 2), FA) && PickedBySeeks(W8.db.levels, 1, FA)
  {
    SortedHere();
    ClosedHere();
    FirstIsFull();
    hide ClosedInputs;
    hide ClosedWhenFull;
    Lookups();
    assert FX in W8.db.levels[2];
  }

  lemma SecondDecision()
    requires SearchableLevels(W13.db.levels)
    ensures AsCodeDecides(W13, Compact(C2, [FZ], 6), FB) && PickedBySeeks(W13.db.levels, 1, FB)
  {
    SortedHere();
    ClosedHere();
    SecondIsFull();
    hide ClosedInputs;
    hide ClosedWhenFull;
    Lookups();
    assert FD in W13.db.levels[2];
  }

  lemma Lookups()
    ensures LookupRun(FA.entries, 1.5, 1) == None && LookupRun(FX.entries, 1.5, 1) == Some(X1)
    ensures LookupRun(FB.entries, 1.5, 1) == None && LookupRun(FD.entries, 1.5, 1) == Some(X1)
  {
    SeekIs([A4, D3, P2], 1);
    SeekIs([X1], 0);
    SeekIs([B5, C6], 1);
    SeekIs([A4, X1, D3], 1);
  }

  lemma SeekIs(es: seq<Entry>, i: nat)
    requires i < |es| && !Before(es[i], SeekKey(1.5, 1)) && forall j :: 0 <= j < i ==> Before(es[j], SeekKey(1.5, 1))
    ensures SeekIndex(es, SeekKey(1.5, 1)) == i
  {
  }

  lemma RunHere(ws: seq<World>, acts: seq<Action>)
    requires |ws| == |acts| + 1 && InitWorld(ws[0])
    requires forall i :: 0 <= i < |acts| ==> Steps(ws[i], acts[i], ws[i + 1])
    ensures Run(ws, acts)
  {
    forall i | 0 <= i < |acts| ensures SearchableLevels(ws[i].db.levels) && Step(ws[i], acts[i], ws[i + 1]) {
      assert Steps(ws[i], acts[i], ws[i + 1]);
    }
  }

  /** The database starts empty, writes "old", deletes it, and after two compactions a
      read at the last sequence finds "old" again.  Every flush goes where the code sends
      it, and both compactions are the ones that the code makes of a file picked by seeks. */
  lemma DeletionIsLost()
    ensures Run(Worlds(), Acts())
    ensures forall i :: 0 <= i < |Acts()| ==>
              SearchableLevels(Worlds()[i].db.levels) && AsCodeDecides(Worlds()[i], Acts()[i], Picked(i))
              && (Acts()[i].Compact? ==> PickedBySeeks(Worlds()[i].db.levels, 1, Picked(i)))
    ensures ReadAt(W14.history, 2.0, 6) == None && ReadAt(Stored(W14.db), 2.0, 6) == Some("old")
    ensures !ReadsAgree(W14)
  {
    FinalReads();
    assert InitWorld(W0) by { Start(); }
    forall i | 0 <= i < 14 ensures Steps(Worlds()[i], Acts()[i], Worlds()[i + 1]) { StepAt(i); }
    RunHere(Worlds(), Acts());
    forall i | 0 <= i < 14
      ensures SearchableLevels(Worlds()[i].db.levels) && AsCodeDecides(Worlds()[i], Acts()[i], Picked(i))
      ensures Acts()[i].Compact? ==> PickedBySeeks(Worlds()[i].db.levels, 1, Picked(i))
    {
      assert Steps(Worlds()[i], Acts()[i], Worlds()[i + 1]);
      DecisionAt(i);
    }
  }

  lemma FinalReads()
    ensures ReadAt(W14.history, 2.0, 6) == None && ReadAt(Stored(W14.db), 2.0, 6) == Some("old")
  {
    assert Newest(W14.history, 2.0, 6, D3);
    ReadNewest(W14.history, 2.0, 6, D3);
    FinalStored();
    assert Newest(Stored(W14.db), 2.0, 6, P2);
    ReadNewest(Stored(W14.db), 2.0, 6, P2);
  }

  lemma FinalStored()
    ensures Stored(W14.db) == {B5, X1, C6, P2}
  {
    var levels := Levels([], [FZ, FP]);
    FilesHere();
    assert EntriesOf({FZ, FP}) == {B5, X1, C6, P2} by {
      assert B5 in FZ.entries && X1 in FZ.entries && C6 in FZ.entries && P2 in FP.entries;
    }
    assert VersionEntries(levels) == {B5, X1, C6, P2} by {
      forall e | e in {B5, X1, C6, P2} ensures e in VersionEntries(levels) { assert e in EntriesOf(Files(levels[2])); }
      forall l | 0 <= l < 7 && l != 2 ensures EntriesOf(Files(levels[l])) == {} { assert levels[l] == []; }
    }
  }
}
