/** DBImpl: the fields and the methods that move them, each one a step of the
    database's state machine (db/db_impl.cc, db/version_set.cc). */
module DbImplementation {
  import opened InternalKeys
  import opened Lists
  import opened SnapshotReads
  import opened Versions
  import opened CompactionInputs
  import opened CompactionRules
  import opened CompactionLoop
  import opened VersionBuilder
  import opened VersionSteps
  import opened Database
  import opened DatabaseRuns
  import Merger

  const MAX_MEM_COMPACT_LEVEL := 2

  // ---- Version::PickLevelForMemTableOutput ----

  ghost predicate SequencesInRange(level: seq<File>) {
    forall f, e :: f in level && e in f.entries ==> e.sequence <= MAX_SEQUENCE
  }

  /** SomeFileOverlapsRange: a scan on level 0, a binary search on the others. */
  method SomeFileOverlapsRange(disjointSorted: bool, files: seq<File>, r: Range) returns (some: bool)
    requires SortedFiles(files) && (disjointSorted ==> Disjoint(Files(files))) && SequencesInRange(files)
    ensures some <==> exists f :: f in files && Overlaps(f, r)
  {
    if !disjointSorted {
      for i := 0 to |files|
        invariant forall f :: f in files[..i] ==> !Overlaps(f, r)
      {
        if Overlaps(files[i], r) { return true; }
        assert files[..i + 1] == files[..i] + [files[i]];
      }
      assert files[..|files|] == files;
      return false;
    }
    var index := 0;
    if r.lo.Some? { index := FindFile(files, SeekKey(r.lo.value, MAX_SEQUENCE)); }
    forall i | 0 <= i < |files| ensures r.lo.Some? ==> (i < index <==> Largest(files[i]).ukey < r.lo.value) {
      assert Largest(files[i]) in files[i].entries && files[i] in files;
    }
    if index >= |files| { return false; }
    forall i | index < i < |files| ensures Smallest(files[index]).ukey <= Smallest(files[i]).ukey {
      LevelOrder(files, index, i);
      FileBounds(files[index], Smallest(files[index]));
    }
    some := r.hi.None? || Smallest(files[index]).ukey <= r.hi.value;
    assert some ==> files[index] in files && Overlaps(files[index], r);
  }

  ghost predicate Meets(files: seq<File>, r: Range)
    requires AllValid(files)
  {
    exists f :: f in files && Overlaps(f, r)
  }

  /** How deep a flushed table goes, once it has got to `level`. */
  ghost function Deepened(levels: seq<seq<File>>, f: File, level: nat, grandparentLimit: nat): (deep: nat)
    requires SearchableLevels(levels) && ValidFile(f) && level <= MAX_MEM_COMPACT_LEVEL
    ensures deep <= MAX_MEM_COMPACT_LEVEL
    decreases MAX_MEM_COMPACT_LEVEL - level
  {
    var r := UserRange(Smallest(f), Largest(f));
    if level == MAX_MEM_COMPACT_LEVEL || Meets(levels[level + 1], r)
       || TotalFileSize(Overlapping(levels[level + 2], r)) > grandparentLimit then level
    else Deepened(levels, f, level + 1, grandparentLimit)
  }

  /** The level a flushed table goes to. */
  ghost function FlushLevel(levels: seq<seq<File>>, f: File, grandparentLimit: nat): nat
    requires SearchableLevels(levels) && ValidFile(f)
  {
    if Meets(levels[0], UserRange(Smallest(f), Largest(f))) then 0 else Deepened(levels, f, 0, grandparentLimit)
  }

  ghost predicate AllApart(files: seq<File>, f: File)
    requires AllValid(files) && ValidFile(f)
  {
    forall g :: g in files ==> UserApart(f, g)
  }

  /** The way from `level` to the next one is free: nothing there meets the range of the
      file, and what it meets one deeper is not too much. */
  ghost predicate WayDown(levels: seq<seq<File>>, f: File, level: nat, grandparentLimit: nat)
    requires SearchableLevels(levels) && ValidFile(f) && level < MAX_MEM_COMPACT_LEVEL
  {
    && AllApart(levels[level + 1], f)
    && TotalFileSize(Overlapping(levels[level + 2], UserRange(Smallest(f), Largest(f)))) <= grandparentLimit
  }

  /** A flushed table goes down as long as the way is free, once it is clear of level 0. */
  lemma {:induction false} FlushLevelIs(levels: seq<seq<File>>, f: File, grandparentLimit: nat)
    requires SearchableLevels(levels) && ValidFile(f)
    ensures var level := FlushLevel(levels, f, grandparentLimit);
            var clear := AllApart(levels[0], f);
            && level <= 2 && (!clear ==> level == 0)
            && (forall l: nat :: l < level ==> WayDown(levels, f, l, grandparentLimit))
            && (clear && level < 2 ==> !WayDown(levels, f, level, grandparentLimit))
  {
    hide Meets;
    hide AllApart;
    hide Overlapping;
    hide TotalFileSize;
    hide WayDown;
    MeetsUnlessApart(levels[0], f);
    if !Meets(levels[0], UserRange(Smallest(f), Largest(f))) { DeepenedIs(levels, f, 0, grandparentLimit); }
  }

  lemma MeetsUnlessApart(files: seq<File>, f: File)
    requires AllValid(files) && ValidFile(f)
    ensures Meets(files, UserRange(Smallest(f), Largest(f))) <==> !AllApart(files, f)
  {
    forall g | g in files ensures Overlaps(g, UserRange(Smallest(f), Largest(f))) <==> !UserApart(f, g) {}
  }

  lemma {:induction false} DeepenedIs(levels: seq<seq<File>>, f: File, level: nat, grandparentLimit: nat)
    requires SearchableLevels(levels) && ValidFile(f) && level <= MAX_MEM_COMPACT_LEVEL
    ensures var deep := Deepened(levels, f, level, grandparentLimit);
            && level <= deep <= 2
            && (forall l: nat :: level <= l < deep ==> WayDown(levels, f, l, grandparentLimit))
            && (deep < 2 ==> !WayDown(levels, f, deep, grandparentLimit))
    decreases MAX_MEM_COMPACT_LEVEL - level
  {
    hide Meets;
    hide AllApart;
    hide Overlapping;
    hide TotalFileSize;
    if level < MAX_MEM_COMPACT_LEVEL {
      MeetsUnlessApart(levels[level + 1], f);
      if WayDown(levels, f, level, grandparentLimit) { DeepenedIs(levels, f, level + 1, grandparentLimit); }
    }
  }

  method PickLevelForMemTableOutput(levels: seq<seq<File>>, f: File, grandparentLimit: nat) returns (level: nat)
    requires SearchableLevels(levels) && ValidFile(f)
    requires forall l :: 0 <= l < NUM_LEVELS ==> SequencesInRange(levels[l])
    ensures LevelAllowed(levels, f, level) && level == FlushLevel(levels, f, grandparentLimit)
  {
    var r := UserRange(Smallest(f), Largest(f));
    level := 0;
    var overlap := SomeFileOverlapsRange(false, levels[0], r);
    NoOverlapApart(levels[0], f);
    if overlap { return; }
    assert ApartUpTo(levels, f, 0) && LevelAllowed(levels, f, 0);
    hide LevelAllowed;
    while level < MAX_MEM_COMPACT_LEVEL
      invariant level <= MAX_MEM_COMPACT_LEVEL && LevelAllowed(levels, f, level) && ApartUpTo(levels, f, level)
      invariant FlushLevel(levels, f, grandparentLimit) == Deepened(levels, f, level, grandparentLimit)
    {
      var deeper := CanGoDeeper(levels, f, level, grandparentLimit);
      if !deeper { break; }
      level := level + 1;
    }
  }

  ghost predicate ApartUpTo(levels: seq<seq<File>>, f: File, level: nat)
    requires SearchableLevels(levels) && ValidFile(f) && level < NUM_LEVELS
  {
    forall l :: 0 <= l <= level ==> !UserOverlap(Files(levels[l]), f)
  }

  /** One turn of the loop. */
  method CanGoDeeper(levels: seq<seq<File>>, f: File, level: nat, grandparentLimit: nat) returns (deeper: bool)
    requires SearchableLevels(levels) && ValidFile(f) && level < MAX_MEM_COMPACT_LEVEL && ApartUpTo(levels, f, level)
    requires forall l :: 0 <= l < NUM_LEVELS ==> SequencesInRange(levels[l])
    ensures Deepened(levels, f, level, grandparentLimit)
         == if deeper then Deepened(levels, f, level + 1, grandparentLimit) else level
    ensures deeper ==> ApartUpTo(levels, f, level + 1) && LevelAllowed(levels, f, level + 1)
  {
    var r := UserRange(Smallest(f), Largest(f));
    var overlap := SomeFileOverlapsRange(true, levels[level + 1], r);
    NoOverlapApart(levels[level + 1], f);
    var overlaps, _ := GetOverlappingInputs(level + 2, levels[level + 2], r);
    deeper := !overlap && TotalFileSize(overlaps) <= grandparentLimit;
  }

  lemma NoOverlapApart(fs: seq<File>, f: File)
    requires SortedFiles(fs) && ValidFile(f)
    ensures UserOverlap(Files(fs), f) <==> exists g :: g in fs && Overlaps(g, UserRange(Smallest(f), Largest(f)))
  {
    if g :| g in fs && Overlaps(g, UserRange(Smallest(f), Largest(f))) { assert g in Files(fs) && !UserApart(f, g); }
  }

  // ---- MakeInputIterator ----

  lemma InputsArePlaced(levels: seq<seq<File>>, c: Compaction, files: seq<File>, i: nat)
    requires ValidVersion(levels) && c.level + 1 < NUM_LEVELS && files == c.inputs0 + c.inputs1 && i < |files|
    requires Files(c.inputs0) <= Files(levels[c.level]) && Files(c.inputs1) <= Files(levels[c.level + 1])
    ensures InputAt(levels, c, files[i], if i < |c.inputs0| then c.level else c.level + 1) && ValidFile(files[i])
  {
    var l := if i < |c.inputs0| then c.level else c.level + 1;
    assert if i < |c.inputs0| then files[i] in Files(c.inputs0) else files[i] in Files(c.inputs1);
    assert files[i] in Files(levels[l]);
    LevelFacts(levels, l);
  }

  lemma InputsOnce(levels: seq<seq<File>>, c: Compaction)
    requires ValidVersion(levels) && c.level + 1 < NUM_LEVELS && ClosedInputs(levels, c)
    ensures Files(c.inputs0) <= Files(levels[c.level]) && Files(c.inputs1) <= Files(levels[c.level + 1])
    ensures Once(c.inputs0) && Once(c.inputs1)
  {
    ClosedIsHeld(levels, c);
    InputsWithin(levels, c);
    LevelFacts(levels, c.level + 1);
    OverlappingOnce(levels[c.level + 1], UserRange(c.smallest, c.largest));
  }

  /** The inputs as children of one merging iterator: sorted, with no key in common. */
  lemma InputsAreDistinct(levels: seq<seq<File>>, c: Compaction, files: seq<File>)
    requires ValidVersion(levels) && c.level + 1 < NUM_LEVELS && files == c.inputs0 + c.inputs1
    requires Files(c.inputs0) <= Files(levels[c.level]) && Files(c.inputs1) <= Files(levels[c.level + 1])
    requires Once(c.inputs0) && Once(c.inputs1)
    ensures Merger.SortedChildren(EntriesList(files))
  {
    var children := EntriesList(files);
    forall i, j, a, b | 0 <= i < |children| && 0 <= j < |children| && i != j && a in children[i] && b in children[j]
      ensures Before(a, b) || Before(b, a)
    {
      InputsArePlaced(levels, c, files, i);
      InputsArePlaced(levels, c, files, j);
      DifferentInputs(levels, c, files, i, j, a, b);
    }
    forall i | 0 <= i < |children| ensures Sorted(children[i]) { InputsArePlaced(levels, c, files, i); }
  }

  ghost predicate InputAt(levels: seq<seq<File>>, c: Compaction, f: File, l: nat) {
    l < |levels| && f in levels[l]
  }

  lemma DifferentInputs(levels: seq<seq<File>>, c: Compaction, files: seq<File>, i: nat, j: nat, a: Entry, b: Entry)
    requires ValidVersion(levels) && c.level + 1 < NUM_LEVELS && files == c.inputs0 + c.inputs1
    requires Once(c.inputs0) && Once(c.inputs1)
    requires i < |files| && j < |files| && i != j && a in files[i].entries && b in files[j].entries
    requires InputAt(levels, c, files[i], if i < |c.inputs0| then c.level else c.level + 1)
    requires InputAt(levels, c, files[j], if j < |c.inputs0| then c.level else c.level + 1)
    ensures Before(a, b) || Before(b, a)
  {
    hide NumbersUnique;
    var l := if i < |c.inputs0| then c.level else c.level + 1;
    var m := if j < |c.inputs0| then c.level else c.level + 1;
    assert l == m ==> files[i] != files[j];
    if a == b {
      SamePlace(levels, l, files[i], m, files[j], a);
    } else {
      assert a in EntriesOf(Files(levels[l])) && b in EntriesOf(Files(levels[m])) by {
        assert files[i] in Files(levels[l]) && files[j] in Files(levels[m]);
      }
      assert a in VersionEntries(levels) && b in VersionEntries(levels);
    }
  }

  lemma UnionIsInputs(c: Compaction, files: seq<File>)
    requires files == c.inputs0 + c.inputs1
    ensures Merger.Union(EntriesList(files)) == InputEntries(c)
  {
    forall e ensures e in Merger.Union(EntriesList(files)) <==> e in InputEntries(c) {
      if e in Merger.Union(EntriesList(files)) {
        var i :| 0 <= i < |files| && e in EntriesList(files)[i];
        assert if i < |c.inputs0| then files[i] in Files(c.inputs0) else files[i] in Files(c.inputs1);
      }
      if e in InputEntries(c) {
        var f :| (f in c.inputs0 || f in c.inputs1) && e in f.entries;
        assert f in files;
        var i :| 0 <= i < |files| && files[i] == f;
        assert EntriesList(files)[i] in EntriesList(files);
      }
    }
  }

  /** Drain the merging iterator: the inputs in one sorted list. */
  method MergeInputs(children: seq<seq<Entry>>) returns (input: seq<Entry>)
    requires Merger.SortedChildren(children)
    ensures Sorted(input) && Elements(input) == Merger.Union(children)
  {
    var it := new Merger.MergingIterator(children);
    it.SeekToFirst();
    input := [];
    while it.current.Some?
      invariant fresh(it) && it.Valid() && it.children == children
      invariant Drained(input, Merger.Union(children), it.Current())
      decreases Merger.Union(children) - Elements(input)
    {
      var e := it.children[it.current.value][it.pos[it.current.value]];
      it.Next();
      DrainOne(input, Merger.Union(children), e, it.Current());
      input := input + [e];
    }
  }

  /** `input` is everything before the cursor. */
  ghost predicate Drained(input: seq<Entry>, all: set<Entry>, cur: Option<Entry>) {
    && Sorted(input) && Elements(input) <= all
    && (cur.None? ==> Elements(input) == all)
    && (cur.Some? ==> cur.value in all && cur.value !in input)
    && (cur.Some? ==> forall e :: e in input ==> Before(e, cur.value))
    && (cur.Some? ==> forall e :: e in all && e !in input ==> AtOrBefore(cur.value, e))
  }

  lemma DrainOne(input: seq<Entry>, all: set<Entry>, e: Entry, next: Option<Entry>)
    requires Drained(input, all, Some(e)) && Merger.FirstAfter(all, e, next)
    requires forall a, b :: a in all && b in all && a != b ==> Before(a, b) || Before(b, a)
    ensures Drained(input + [e], all, next)
    ensures all - Elements(input + [e]) < all - Elements(input)
  {
    assert Elements(input + [e]) == Elements(input) + {e};
    forall i | 0 <= i < |input| ensures Before(input[i], e) { assert input[i] in input; }
    assert e in all - Elements(input) && e !in all - Elements(input + [e]);
  }

  // ---- MemTable::Add ----

  lemma InsertAt(table: seq<Entry>, i: nat, e: Entry)
    requires Sorted(table) && i <= |table|
    requires forall j :: 0 <= j < i ==> Before(table[j], e)
    requires forall j :: i <= j < |table| ==> Before(e, table[j])
    ensures Sorted(table[..i] + [e] + table[i..])
    ensures Elements(table[..i] + [e] + table[i..]) == Elements(table) + {e}
  {
    assert table == table[..i] + table[i..];
  }

  /** Insertion into the sorted memtable. */
  method Add(table: seq<Entry>, e: Entry) returns (r: seq<Entry>)
    requires Sorted(table) && forall d :: d in table ==> Before(d, e) || Before(e, d)
    ensures Sorted(r) && Elements(r) == Elements(table) + {e}
  {
    var i := SeekIndex(table, e);
    assert i < |table| ==> table[i] in table && Before(e, table[i]);
    assert forall j :: i < j < |table| ==> Before(table[i], table[j]);
    InsertAt(table, i, e);
    r := table[..i] + [e] + table[i..];
  }

  lemma MemAndBatch(table: seq<Entry>, base: set<Entry>, batch: Batch, last: nat, i: nat)
    requires i < |batch| && Elements(table) == base + BatchEntries(batch[..i], last)
    requires forall d :: d in base ==> d.sequence <= last
    ensures forall d :: d in table ==> Before(d, BatchEntry(batch, last, i)) || Before(BatchEntry(batch, last, i), d)
    ensures BatchEntries(batch[..i + 1], last) == BatchEntries(batch[..i], last) + {BatchEntry(batch, last, i)}
  {
    forall d | d in table ensures d.sequence < last + 1 + i { assert d in Elements(table); }
    var more, less := batch[..i + 1], batch[..i];
    forall d ensures d in BatchEntries(more, last) <==> d in BatchEntries(less, last) + {BatchEntry(batch, last, i)} {
      if d in BatchEntries(more, last) {
        var j :| 0 <= j < |more| && d == BatchEntry(more, last, j);
        assert j < i ==> d == BatchEntry(less, last, j);
      }
      if d in BatchEntries(less, last) {
        var j :| 0 <= j < |less| && d == BatchEntry(less, last, j);
        assert d == BatchEntry(more, last, j);
      }
      assert BatchEntry(batch, last, i) == BatchEntry(more, last, i);
    }
  }

  /** WriteBatchInternal::InsertInto. */
  method InsertInto(batch: Batch, last: nat, mem: seq<Entry>) returns (table: seq<Entry>)
    requires Sorted(mem) && forall d :: d in mem ==> d.sequence <= last
    ensures Sorted(table) && Elements(table) == Elements(mem) + BatchEntries(batch, last)
  {
    table := mem;
    for i := 0 to |batch|
      invariant Sorted(table) && Elements(table) == Elements(mem) + BatchEntries(batch[..i], last)
    {
      var e := BatchEntry(batch, last, i);
      MemAndBatch(table, Elements(mem), batch, last, i);
      table := Add(table, e);
    }
    assert batch[..|batch|] == batch;
  }

  // ---- what the methods hand to LogAndApply ----

  lemma StoredInRange(w: World)
    requires Structure(w)
    ensures forall l :: 0 <= l < NUM_LEVELS ==> SequencesInRange(w.db.levels[l])
  {
    forall l, f, e | 0 <= l < NUM_LEVELS && f in w.db.levels[l] && e in f.entries ensures e.sequence <= MAX_SEQUENCE {
      assert f in Files(w.db.levels[l]) && e in EntriesOf(Files(w.db.levels[l]));
      assert e in VersionEntries(w.db.levels) && e in Stored(w.db);
    }
  }

  lemma FlushIsNew(levels: seq<seq<File>>, f: File, level: nat)
    requires |levels| == NUM_LEVELS && NumbersBelow(levels, f.number) && ValidFile(f) && level < NUM_LEVELS
    ensures ValidEdit(FlushEdit(level, f))
    ensures forall l :: 0 <= l < NUM_LEVELS ==> NewNumbers(Files(levels[l]), FlushEdit(level, f).added, l)
  {
  }

  lemma MoveIsNew(levels: seq<seq<File>>, c: Compaction)
    requires NumbersUnique(levels) && |levels| == NUM_LEVELS && c.level + 1 < NUM_LEVELS && ClosedInputs(levels, c)
    requires |c.inputs0| == 1
    ensures ValidEdit(MoveEdit(c.level, c.inputs0[0]))
    ensures forall l :: 0 <= l < NUM_LEVELS ==> NewNumbers(Files(levels[l]), MoveEdit(c.level, c.inputs0[0]).added, l)
  {
    var f := c.inputs0[0];
    assert f in Files(c.inputs0) && f in Files(levels[c.level]);
  }

  lemma CompactionIsNew(levels: seq<seq<File>>, c: Compaction, outs: seq<File>, next: nat)
    requires |levels| == NUM_LEVELS && c.level + 1 < NUM_LEVELS && AllValid(outs) && NumberedApart(levels, outs, next)
    ensures ValidEdit(CompactionEdit(c, outs))
    ensures forall l :: 0 <= l < NUM_LEVELS ==> NewNumbers(Files(levels[l]), CompactionEdit(c, outs).added, l)
  {
  }

  lemma CompactionReady(w: World, c: Compaction)
    requires Structure(w) && c.level + 1 < NUM_LEVELS && ClosedInputs(w.db.levels, c)
    ensures DistinctSequences(InputEntries(c)) && w.floor <= SmallestSnapshot(w.db) < MAX_SEQUENCE
  {
    ClosedIsHeld(w.db.levels, c);
    InputsStored(w.db.levels, c);
    assert InputEntries(c) <= w.history;
    OldestIsSmallest(w.db, w.floor);
  }

  lemma FilesAreValid(level: seq<File>, chosen: seq<File>)
    requires AllValid(level) && Files(chosen) <= Files(level)
    ensures AllValid(chosen)
  {
    forall i | 0 <= i < |chosen| ensures ValidFile(chosen[i]) { assert chosen[i] in Files(chosen); }
  }

  /** Memtable before immutable memtable before the levels. */
  lemma LayeredHit(mem: set<Entry>, imm: set<Entry>, version: set<Entry>, k: UserKey, s: nat,
                   hm: Option<Entry>, hi: Option<Entry>, hv: Option<Entry>)
    requires InLayers(mem, imm, version) && Answers(mem, k, s, hm)
    requires hm.None? ==> Answers(imm, k, s, hi)
    requires hm.None? && hi.None? ==> Answers(version, k, s, hv)
    ensures Answers(mem + imm + version, k, s, if hm.Some? then hm else if hi.Some? then hi else hv)
  {
    LayeredAnswer(mem, imm, k, s, hm, hi);
    var hmi := if hm.Some? then hm else hi;
    LayeredAnswer(mem + imm, version, k, s, hmi, hv);
  }

  lemma AnswerIsRead(es: set<Entry>, k: UserKey, s: nat, hit: Option<Entry>)
    requires DistinctSequences(es) && Answers(es, k, s, hit)
    ensures ReadAt(es, k, s) == match hit case Some(e) => ValueOf(e) case None => None
  {
    if hit.Some? { ReadNewest(es, k, s, hit.value); }
  }

  // ---- choosing and merging, without the object ----

  /** Why a compaction runs: a level too big, a file read past too often, or a request. */
  datatype Pick = BySize(level: nat) | BySeeks(level: nat, file: File) | Manual(level: nat, range: Range)

  ghost predicate CanPick(levels: seq<seq<File>>, pick: Pick)
    requires |levels| == NUM_LEVELS
  {
    && pick.level + 1 < NUM_LEVELS
    && (pick.BySize? ==> levels[pick.level] != []) && (pick.BySeeks? ==> pick.file in levels[pick.level])
  }

  /** What the pick asks for is among the inputs. */
  ghost predicate FollowsPick(levels: seq<seq<File>>, pointers: seq<Option<Entry>>, pick: Pick, inputs: seq<File>)
    requires ValidVersion(levels) && |pointers| == NUM_LEVELS && CanPick(levels, pick)
  {
    match pick
    case BySize(level) => exists f :: f in inputs && AfterPointer(levels[level], pointers[level], f)
    case BySeeks(level, file) => file in inputs
    case Manual(level, range) => exists f :: f in inputs && f in levels[level] && (level > 0 ==> Overlaps(f, range))
  }

  /** The file itself, or on level 0 all that the least closed range around it meets. */
  ghost predicate StartsAt(level: nat, fs: seq<File>, picked: File, chosen: seq<File>)
    requires AllValid(fs) && ValidFile(picked)
  {
    if level > 0 then chosen == [picked]
    else exists used :: LeastClosed(fs, UserRange(Smallest(picked), Largest(picked)), used)
                        && chosen == Overlapping(fs, used)
  }

  /** The files of the range, cut off at the limit above level 0. */
  ghost predicate TakesRange(level: nat, fs: seq<File>, range: Range, limit: nat, chosen: seq<File>)
    requires AllValid(fs)
  {
    if level > 0 then chosen <= Overlapping(fs, range) && CutAtLimit(Overlapping(fs, range), limit, |chosen|)
    else exists used :: LeastClosed(fs, range, used) && chosen == Overlapping(fs, used)
  }

  ghost predicate PickedStart(levels: seq<seq<File>>, pointers: seq<Option<Entry>>, pick: Pick, rangeLimit: nat,
                              chosen: seq<File>)
    requires ValidVersion(levels) && |pointers| == NUM_LEVELS && CanPick(levels, pick)
  {
    var fs := levels[pick.level];
    match pick
    case BySize(level) => exists f :: f in fs && AfterPointer(fs, pointers[level], f) && StartsAt(level, fs, f, chosen)
    case BySeeks(level, file) => StartsAt(level, fs, file, chosen)
    case Manual(level, range) => TakesRange(level, fs, range, rangeLimit, chosen)
  }

  /** PickCompaction and CompactRange up to SetupOtherInputs: nothing if a request meets no file. */
  method PickInputs(levels: seq<seq<File>>, pointers: seq<Option<Entry>>, pick: Pick, rangeLimit: nat)
    returns (chosen: seq<File>)
    requires ValidVersion(levels) && |pointers| == NUM_LEVELS && CanPick(levels, pick)
    ensures chosen == [] ==> pick.Manual? && (pick.level > 0 ==> Overlapping(levels[pick.level], pick.range) == [])
    ensures chosen != [] ==>
              StartInputs(pick.level, levels[pick.level], chosen)
              && FollowsPick(levels, pointers, pick, chosen) && PickedStart(levels, pointers, pick, rangeLimit, chosen)
    ensures !pick.Manual? ==> AllValid(chosen) && GapFree(Files(chosen))
  {
    LevelFacts(levels, pick.level);
    var fs := levels[pick.level];
    ghost var used;
    match pick
    case BySize(level) =>
      var picked := PickBySize(fs, pointers[level]);
      chosen, used := PickStart(level, fs, picked);
    case BySeeks(level, file) =>
      chosen, used := PickStart(level, fs, file);
    case Manual(level, range) =>
      chosen, used := CompactRangeStart(level, fs, range, rangeLimit);
      if chosen != [] { assert chosen[0] in Overlapping(fs, used); }
  }

  /** More inputs still follow the pick. */
  lemma StillFollows(levels: seq<seq<File>>, pointers: seq<Option<Entry>>, pick: Pick, chosen: seq<File>,
                     inputs: seq<File>)
    requires ValidVersion(levels) && |pointers| == NUM_LEVELS && CanPick(levels, pick)
             && FollowsPick(levels, pointers, pick, chosen)
    requires Files(chosen) <= Files(inputs)
    ensures FollowsPick(levels, pointers, pick, inputs)
  {
    forall f | f in chosen ensures f in inputs { assert f in Files(chosen) && f in Files(inputs); }
  }

  /** SetupOtherInputs has made `c` of `chosen`. */
  ghost predicate MadeOf(levels: seq<seq<File>>, chosen: seq<File>, expandLimit: nat, c: Compaction)
    requires c.level + 1 < |levels| && AllValid(levels[c.level]) && AllValid(levels[c.level + 1])
  {
    exists first: Compaction ::
      first.level == c.level && AllValid(first.inputs0) && AllValid(first.inputs1)
      && ClosedPair(levels[c.level], levels[c.level + 1], first)
      && SetUpFrom(levels[c.level], levels[c.level + 1], chosen, expandLimit, first, c)
  }

  /** grandparents_: the files that the hull of the inputs meets two levels down. */
  ghost predicate GrandparentsOf(levels: seq<seq<File>>, c: Compaction, gs: seq<File>)
    requires ValidVersion(levels) && AllValid(c.inputs0) && AllValid(c.inputs1)
  {
    if c.level + 2 >= NUM_LEVELS then gs == []
    else exists hull :: IsHull(c, hull) && AllValid(levels[c.level + 2])
                        && gs == Overlapping(levels[c.level + 2], hull)
  }

  /** SetupOtherInputs, with the files the inputs overlap two levels down. */
  method SetupInputs(levels: seq<seq<File>>, level: nat, chosen: seq<File>, expandLimit: nat)
    returns (c: Compaction, grandparents: seq<File>)
    requires ValidVersion(levels) && level + 1 < NUM_LEVELS && StartInputs(level, levels[level], chosen)
    ensures c.level == level && ClosedInputs(levels, c) && Files(chosen) <= Files(c.inputs0)
    ensures MadeOf(levels, chosen, expandLimit, c)
    ensures AllValid(c.inputs0) && AllValid(c.inputs1) && GrandparentsOf(levels, c, grandparents)
    ensures SortedFiles(grandparents) && Disjoint(Files(grandparents))
    ensures GapFree(Files(chosen)) ==> WithoutGaps(c)
  {
    hide SetUpFrom;
    hide IsHull;
    hide ClosedInputs;
    hide StartInputs;
    hide GapFree;
    hide WithoutGaps;
    hide Overlapping;
    hide ValidVersion;
    hide Disjoint;
    hide SortedFiles;
    ghost var first;
    c, first := SetupOtherInputs(levels, level, chosen, expandLimit);
    grandparents := [];
    NoFiles();
    InputFacts(levels, c);
    InputFacts(levels, first);
    if level + 2 < NUM_LEVELS {
      grandparents := GrandparentFiles(levels, c);
    }
  }

  lemma InputFacts(levels: seq<seq<File>>, c: Compaction)
    requires ValidVersion(levels) && ClosedInputs(levels, c)
    ensures AllValid(c.inputs0) && AllValid(c.inputs1) && |levels| == NUM_LEVELS && c.level + 1 < |levels|
    ensures forall l :: 0 <= l < NUM_LEVELS ==> AllValid(levels[l])
    ensures ClosedPair(levels[c.level], levels[c.level + 1], c)
  {
    ClosedIsHeld(levels, c);
    FilesAreValid(levels[c.level], c.inputs0);
    forall l | 0 <= l < NUM_LEVELS ensures AllValid(levels[l]) { LevelFacts(levels, l); }
  }

  lemma NoFiles()
    ensures SortedFiles([]) && Disjoint(Files([]))
  {
  }

  lemma SomeOfLevel(level: seq<File>, r: Range)
    requires SortedFiles(level) && Disjoint(Files(level))
    ensures SortedFiles(Overlapping(level, r)) && Disjoint(Files(Overlapping(level, r)))
  {
    OverlappingOrdered(level, r);
    forall f | f in Files(Overlapping(level, r)) ensures f in Files(level) {}
  }

  method GrandparentFiles(levels: seq<seq<File>>, c: Compaction) returns (gs: seq<File>)
    requires ValidVersion(levels) && c.level + 2 < NUM_LEVELS && AllValid(levels[c.level + 2])
             && ClosedInputs(levels, c)
    ensures AllValid(c.inputs0) && AllValid(c.inputs1) && SortedFiles(gs) && Disjoint(Files(gs))
    ensures exists hull :: IsHull(c, hull) && gs == Overlapping(levels[c.level + 2], hull)
  {
    hide Overlapping;
    ClosedIsHeld(levels, c);
    InputsWithin(levels, c);
    FilesAreValid(levels[c.level], c.inputs0);
    LevelFacts(levels, c.level + 2);
    hide ValidVersion;
    var start, limit := GetRange(c.inputs0 + c.inputs1);
    ghost var used;
    gs, used := GetOverlappingInputs(c.level + 2, levels[c.level + 2], UserRange(start, limit));
    assert IsHull(c, UserRange(start, limit));
    SomeOfLevel(levels[c.level + 2], UserRange(start, limit));
  }

  function FirstOf(n: nat, told: nat -> bool): (s: seq<bool>)
    ensures |s| == n && forall i :: 0 <= i < n ==> s[i] == told(i)
  { seq(n, i requires 0 <= i < n => told(i)) }

  /** The outputs are cut, in the merged list of the inputs, exactly where a file is full or
      the grandparents say so. */
  ghost predicate CutsAsTold(c: Compaction, outs: seq<File>, gs: seq<File>, limit: nat, fileFull: nat -> bool)
    requires FilesValid(gs)
  {
    exists input :: Sorted(input) && Elements(input) == InputEntries(c)
      && CutAsTold(input, EntriesList(outs), Stops(input, gs, limit, |input|), FirstOf(|input|, fileFull))
  }

  /** MakeInputIterator and DoCompactionWork: the outputs of one compaction. */
  method MergeAndCut(db: Db, ghost w: World, c: Compaction, grandparents: seq<File>, limit: nat,
                     fileFull: nat -> bool, sizes: nat -> nat)
    returns (outs: seq<File>)
    requires SortedFiles(grandparents) && Disjoint(Files(grandparents))
    requires Structure(w) && w.db == db && c.level + 1 < NUM_LEVELS && ClosedInputs(db.levels, c)
    ensures OutputsOf(db.levels, c, outs, SmallestSnapshot(db)) && NumberedApart(db.levels, outs, db.nextFile + |outs|)
    ensures CutsAsTold(c, outs, grandparents, limit, fileFull)
  {
    hide ClosedPair;
    hide NumbersUnique;
    hide InputEntries;
    hide CutAsTold;
    var files := c.inputs0 + c.inputs1;
    InputsOnce(db.levels, c);
    InputsAreDistinct(db.levels, c, files);
    UnionIsInputs(c, files);
    CompactionReady(w, c);
    var input := MergeInputs(EntriesList(files));
    var cut := DoCompactionWork(input, db.levels, c.level, SmallestSnapshot(db),
                                grandparents, limit, FirstOf(|input|, fileFull));
    outs := NumberOutputs(cut, db.nextFile, sizes);
    NumbersAreFresh(db.levels, outs, db.nextFile);
  }

  lemma NumbersAreFresh(levels: seq<seq<File>>, outs: seq<File>, next: nat)
    requires NumbersBelow(levels, next) && forall i :: 0 <= i < |outs| ==> outs[i].number == next + i
    ensures NumberedApart(levels, outs, next + |outs|)
  {
  }

  /** The whole compaction up to the new version. */
  method CompactLevels(db: Db, ghost w: World, c: Compaction, grandparents: seq<File>, limit: nat,
                       fileFull: nat -> bool, sizes: nat -> nat)
    returns (outs: seq<File>, levels': seq<seq<File>>)
    requires SortedFiles(grandparents) && Disjoint(Files(grandparents))
    requires Structure(w) && w.db == db && c.level + 1 < NUM_LEVELS && ClosedInputs(db.levels, c)
    ensures OutputsOf(db.levels, c, outs, SmallestSnapshot(db)) && NumberedApart(db.levels, outs, db.nextFile + |outs|)
    ensures CutsAsTold(c, outs, grandparents, limit, fileFull)
    ensures Edited(db.levels, CompactionEdit(c, outs), levels')
  {
    hide CutsAsTold;
    outs := MergeAndCut(db, w, c, grandparents, limit, fileFull, sizes);
    CutFiles(outs);
    CompactionIsNew(db.levels, c, outs, db.nextFile + |outs|);
    levels' := LogAndApply(db.levels, CompactionEdit(c, outs));
  }

  ghost function Installed(w: World, outs: seq<File>, levels': seq<seq<File>>): World {
    World(w.db.(levels := levels', nextFile := w.db.nextFile + |outs|), w.history, SmallestSnapshot(w.db))
  }

  lemma CompactionFacts(w: World)
    requires Structure(w)
    ensures SearchableLevels(w.db.levels) && w.floor <= SmallestSnapshot(w.db)
  {
    hide SearchableLevels;
    LevelsOf(w);
  }

  lemma InstallIsStep(w: World, c: Compaction, outs: seq<File>, levels': seq<seq<File>>)
    requires SearchableLevels(w.db.levels) && c.level + 1 < NUM_LEVELS && ClosedInputs(w.db.levels, c)
    requires OutputsOf(w.db.levels, c, outs, SmallestSnapshot(w.db))
             && NumberedApart(w.db.levels, outs, w.db.nextFile + |outs|)
    requires w.floor <= SmallestSnapshot(w.db) && Edited(w.db.levels, CompactionEdit(c, outs), levels')
    ensures Step(w, Compact(c, outs, SmallestSnapshot(w.db)), Installed(w, outs, levels'))
  {
    ClosedIsHeld(w.db.levels, c);
  }

  /** NewFileNumber for each output. */
  method NumberOutputs(cut: seq<seq<Entry>>, next: nat, sizes: nat -> nat) returns (outs: seq<File>)
    requires forall o :: o in cut ==> o != []
    ensures EntriesList(outs) == cut && forall o :: o in outs ==> o.entries != []
    ensures forall i :: 0 <= i < |outs| ==> outs[i].number == next + i
  {
    outs := seq(|cut|, i requires 0 <= i < |cut| => File(next + i, sizes(i), cut[i]));
    forall o | o in outs ensures o.entries != [] {
      var i :| 0 <= i < |outs| && outs[i] == o;
      assert cut[i] in cut;
    }
  }

  /** Byte limits: MaxGrandParentOverlapBytes, ExpandedCompactionByteSizeLimit, MaxFileSizeForLevel. */
  datatype Limits = Limits(grandparents: nat, expand: nat, range: nat)

  /** What PickCompaction or CompactRange has chosen is what the inputs are made of. */
  ghost predicate AsPicked(levels: seq<seq<File>>, pointers: seq<Option<Entry>>, pick: Pick, limits: Limits,
                           c: Compaction) {
    && ValidVersion(levels) && |pointers| == NUM_LEVELS && CanPick(levels, pick) && c.level == pick.level
    && AllValid(levels[c.level]) && AllValid(levels[c.level + 1])
    && exists chosen :: PickedStart(levels, pointers, pick, limits.range, chosen)
                        && MadeOf(levels, chosen, limits.expand, c)
  }

  /** A single file that meets nothing in the next level and not too much in the one below. */
  ghost predicate MovesAlone(levels: seq<seq<File>>, c: Compaction, limit: nat) {
    && |c.inputs0| == 1 && c.inputs1 == [] && ValidVersion(levels) && AllValid(c.inputs0)
    && forall gs :: GrandparentsOf(levels, c, gs) ==> TotalFileSize(gs) <= limit
  }

  lemma GrandparentsAreOne(levels: seq<seq<File>>, c: Compaction, a: seq<File>, b: seq<File>)
    requires ValidVersion(levels) && AllValid(c.inputs0) && AllValid(c.inputs1)
    requires GrandparentsOf(levels, c, a) && GrandparentsOf(levels, c, b)
    ensures a == b
  {
    hide ValidVersion;
    hide Overlapping;
  }

  /** The outputs are cut where they are full or meet too much of the level below. */
  ghost predicate CutAround(levels: seq<seq<File>>, c: Compaction, outs: seq<File>, limit: nat,
                            fileFull: nat -> bool) {
    && ValidVersion(levels) && AllValid(c.inputs0) && AllValid(c.inputs1)
    && exists gs :: GrandparentsOf(levels, c, gs) && FilesValid(gs) && CutsAsTold(c, outs, gs, limit, fileFull)
  }

  // ---- the database object ----

  class DBImpl {
    var mem: seq<Entry>
    var imm: Option<seq<Entry>>
    var levels: seq<seq<File>>
    var lastSequence: nat
    var snapshots: seq<nat>
    var nextFile: nat
    var compactPointers: seq<Option<Entry>>  // where the next compaction of each level starts
    ghost var history: set<Entry>
    ghost var floor: nat

    function State(): Db
      reads this
    { Db(mem, imm, levels, lastSequence, snapshots, nextFile) }

    ghost function View(): World
      reads this
    { World(State(), history, floor) }

    ghost predicate Valid()
      reads this
    { Structure(View()) }

    constructor ()
      ensures InitWorld(View()) && Valid() && ReadsAgree(View()) && compactPointers == seq(NUM_LEVELS, _ => None)
    {
      mem, imm, levels := [], None, seq(NUM_LEVELS, _ => []);
      lastSequence, snapshots, nextFile := 0, [], 2;
      compactPointers := seq(NUM_LEVELS, _ => None);
      history, floor := {}, 0;
      new;
      InitStructure(View());
    }

    /** MemTable::Add for every operation of the batch, with consecutive sequences. */
    method Write(batch: Batch)
      requires Valid() && lastSequence + |batch| < MAX_SEQUENCE
      modifies this
      ensures Valid() && Step(old(View()), Action.Write(batch), View())
    {
      var last := lastSequence;
      mem := InsertInto(batch, last, mem);
      history := history + BatchEntries(batch, last);
      lastSequence := last + |batch|;
      StepKeepsStructure(old(View()), Action.Write(batch), View());
    }

    /** The switch at the end of MakeRoomForWrite. */
    method SwitchMemTable()
      requires Valid() && imm == None
      modifies this
      ensures Valid() && Step(old(View()), Action.SwitchMemTable, View())
    {
      nextFile := nextFile + 1;  // the new log
      imm := Some(mem);
      mem := [];
      StepKeepsStructure(old(View()), Action.SwitchMemTable, View());
    }

    /** CompactMemTable: an empty memtable leaves no file. */
    method CompactMemTable(size: nat, grandparentLimit: nat) returns (level: nat)
      requires Valid() && imm.Some?
      modifies this`levels, this`nextFile, this`imm
      ensures Valid() && Step(old(View()), FlushMemTable(level, size), View())
      ensures old(imm).value == [] ==> level == 0
      ensures old(imm).value != [] ==>
                var f := File(old(nextFile), size, old(imm).value);
                SearchableLevels(old(levels)) && ValidFile(f) && level == FlushLevel(old(levels), f, grandparentLimit)
    {
      hide FlushLevel;
      level := 0;
      if imm.value != [] {
        var f := File(nextFile, size, imm.value);
        StoredInRange(View());
        level := PickLevelForMemTableOutput(levels, f, grandparentLimit);
        assert NumbersBelow(levels, f.number);
        FlushIsNew(levels, f, level);
        levels := LogAndApply(levels, FlushEdit(level, f));
      }
      nextFile := nextFile + 1;
      imm := None;
      StepKeepsStructure(old(View()), FlushMemTable(level, size), View());
    }

    method GetSnapshot() returns (s: nat)
      requires Valid()
      modifies this
      ensures Valid() && s == lastSequence && Step(old(View()), Action.GetSnapshot, View())
    {
      s := lastSequence;
      snapshots := snapshots + [s];
      StepKeepsStructure(old(View()), Action.GetSnapshot, View());
    }

    method ReleaseSnapshot(i: nat)
      requires Valid() && i < |snapshots|
      modifies this
      ensures Valid() && Step(old(View()), Action.ReleaseSnapshot(i), View())
    {
      snapshots := snapshots[..i] + snapshots[i + 1..];
      StepKeepsStructure(old(View()), Action.ReleaseSnapshot(i), View());
    }

    /** AppendVersion with the new files' numbers used up. */
    method Install(levels': seq<seq<File>>, files: nat, ghost floor': nat)
      modifies this`levels, this`nextFile, this`floor
      ensures View() == World(old(State()).(levels := levels', nextFile := old(nextFile) + files), old(history), floor')
    {
      levels, nextFile, floor := levels', nextFile + files, floor';
    }

    /** DoCompactionWork followed by InstallCompactionResults, with nothing in between. */
    method DoCompaction(c: Compaction, grandparents: seq<File>, limit: nat, fileFull: nat -> bool, sizes: nat -> nat)
      returns (outs: seq<File>)
      requires SortedFiles(grandparents) && Disjoint(Files(grandparents))
      requires Valid() && c.level + 1 < NUM_LEVELS && ClosedInputs(levels, c)
      modifies this`levels, this`nextFile, this`floor
      ensures Valid() && Step(old(View()), Compact(c, outs, SmallestSnapshot(old(State()))), View())
      ensures CutsAsTold(c, outs, grandparents, limit, fileFull)
    {
      hide Structure;
      hide Step;
      hide SearchableLevels;
      hide ClosedInputs;
      hide OutputsOf;
      hide Edited;
      hide NumberedApart;
      hide SmallestSnapshot;
      hide CutsAsTold;
      ghost var w := View();
      CompactionFacts(w);
      var levels';
      outs, levels' := CompactLevels(State(), w, c, grandparents, limit, fileFull, sizes);
      Install(levels', |outs|, SmallestSnapshot(w.db));
      InstallIsStep(w, c, outs, levels');
      StepKeepsStructure(w, Compact(c, outs, SmallestSnapshot(w.db)), View());
    }

    /** The trivial move of BackgroundCompaction. */
    method MoveFile(c: Compaction)
      requires Valid() && c.level + 1 < NUM_LEVELS && ClosedInputs(levels, c) && |c.inputs0| == 1 && c.inputs1 == []
      modifies this`levels
      ensures Valid() && Step(old(View()), TrivialMove(c), View())
    {
      hide ClosedInputs;
      MoveIsNew(levels, c);
      levels := LogAndApply(levels, MoveEdit(c.level, c.inputs0[0]));
      StepKeepsStructure(old(View()), TrivialMove(c), View());
    }

    /** BackgroundCompaction: flush if there is an immutable memtable, otherwise move or
        compact what has been picked or asked for.  Whatever is done is a step. */
    method BackgroundCompaction(pick: Option<Pick>, limits: Limits, fileFull: nat -> bool, sizes: nat -> nat)
      returns (a: Option<Action>)
      requires Valid() && |compactPointers| == NUM_LEVELS && (pick.Some? ==> CanPick(levels, pick.value))
      modifies this
      ensures Valid() && |compactPointers| == NUM_LEVELS
      ensures if a.None? then View() == old(View()) else Step(old(View()), a.value, View())
      ensures old(imm).Some? ==> a.Some? && a.value.FlushMemTable?
      ensures old(imm).None? && a.Some? ==>
                pick.Some? && (a.value.TrivialMove? || a.value.Compact?) && a.value.c.level == pick.value.level
                && FollowsPick(old(levels), old(compactPointers), pick.value, a.value.c.inputs0)
                && compactPointers == old(compactPointers)[pick.value.level := Some(a.value.c.largest)]
                && (!pick.value.Manual? ==> WithoutGaps(a.value.c))
                && AsPicked(old(levels), old(compactPointers), pick.value, limits, a.value.c)
                && (a.value.TrivialMove? <==>
                      !pick.value.Manual? && MovesAlone(old(levels), a.value.c, limits.grandparents))
                && (a.value.Compact? ==>
                      CutAround(old(levels), a.value.c, a.value.outs, limits.grandparents, fileFull))
      ensures old(imm).None? && a.None? ==>
                pick.None? || (pick.value.Manual? && (pick.value.level > 0 ==>
                                                      Overlapping(old(levels)[pick.value.level], pick.value.range)
                                                          == []))
    {
      hide FollowsPick;
      hide PickedStart;
      hide MadeOf;
      hide GrandparentsOf;
      hide CutsAsTold;
      hide FlushLevel;
      hide ClosedInputs;
      hide Overlapping;
      hide GapFree;
      hide StartInputs;
      hide Step;
      if imm.Some? {
        var level := CompactMemTable(sizes(0), limits.grandparents);
        return Some(FlushMemTable(level, sizes(0)));
      }
      if pick.None? { return None; }
      var chosen := PickInputs(levels, compactPointers, pick.value, limits.range);
      if chosen == [] { return None; }
      var c, grandparents := SetupInputs(levels, pick.value.level, chosen, limits.expand);
      StillFollows(levels, compactPointers, pick.value, chosen, c.inputs0);
      forall gs | GrandparentsOf(levels, c, gs) ensures gs == grandparents {
        GrandparentsAreOne(levels, c, gs, grandparents);
      }
      compactPointers := compactPointers[c.level := Some(c.largest)];
      var mayMove := !pick.value.Manual? && TotalFileSize(grandparents) <= limits.grandparents;
      a := MoveOrCompact(c, mayMove, grandparents, limits.grandparents, fileFull, sizes);
    }

    /** A single file that meets nothing is moved, unless asked for or too far overlapping. */
    method MoveOrCompact(c: Compaction, mayMove: bool, grandparents: seq<File>, limit: nat, fileFull: nat -> bool,
                         sizes: nat -> nat)
      returns (a: Option<Action>)
      requires SortedFiles(grandparents) && Disjoint(Files(grandparents))
      requires Valid() && c.level + 1 < NUM_LEVELS && ClosedInputs(levels, c)
      modifies this`levels, this`nextFile, this`floor
      ensures Valid() && a.Some? && Step(old(View()), a.value, View())
      ensures if mayMove && |c.inputs0| == 1 && c.inputs1 == [] then a == Some(TrivialMove(c))
              else a.value.Compact? && a.value.c == c && CutsAsTold(c, a.value.outs, grandparents, limit, fileFull)
    {
      hide CutsAsTold;
      if mayMove && |c.inputs0| == 1 && c.inputs1 == [] {
        MoveFile(c);
        a := Some(TrivialMove(c));
      } else {
        var db := State();
        var outs := DoCompaction(c, grandparents, limit, fileFull, sizes);
        a := Some(Compact(c, outs, SmallestSnapshot(db)));
      }
    }

    /** DBImpl::Get: memtable, then immutable memtable, then the version. */
    method Get(k: UserKey, s: nat) returns (value: Option<Value>)
      requires Valid()
      ensures value == ReadAt(Stored(View().db), k, s)
      ensures ReadsAgree(View()) && s >= floor ==> value == ReadAt(history, k, s)
    {
      var hm, hi, hv: Option<Entry> := LookupRun(mem, k, s), None, None;
      LookupAnswers(mem, k, s);
      if hm.None? {
        if imm.Some? {
          hi := LookupRun(imm.value, k, s);
          LookupAnswers(imm.value, k, s);
        }
        if hi.None? {
          hv := Versions.Get(levels, k, s);
        }
      }
      var hit := if hm.Some? then hm else if hi.Some? then hi else hv;
      LayeredHit(Elements(mem), ImmEntries(View().db), VersionEntries(levels), k, s, hm, hi, hv);
      AnswerIsRead(Stored(View().db), k, s, hit);
      value := match hit case Some(e) => ValueOf(e) case None => None;
    }
  }
}
