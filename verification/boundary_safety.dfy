/** Which files a compaction must not leave behind, as a check on the picked files: the
    exact file-level condition for keeping every read. */
module BoundarySafety {
  import opened InternalKeys
  import opened SnapshotReads
  import opened Versions
  import opened CompactionInputs
  import opened CompactionRules
  import opened CompactionLoop
  import opened VersionBuilder
  import opened VersionSteps
  import opened Database
  import opened DatabaseRuns

  /** The check AddBoundaryInputs makes on the input level, made on the output level:
      no file left there continues the last user key of a file taken from it. */
  ghost predicate NextLevelComplete(next: seq<File>, c: Compaction)
    requires AllValid(next) && AllValid(c.inputs1)
  {
    forall f, g :: f in c.inputs1 && g in next && g !in c.inputs1 ==> !IsBoundary(g, Largest(f))
  }

  /** A base-level key has no entry below the output level. */
  lemma BaseMeansNothingBelow(levels: seq<seq<File>>, level: nat, l: nat, p: Entry)
    requires SearchableLevels(levels) && level + 2 <= l < |levels| && p in EntriesOf(Files(levels[l]))
    ensures !IsBase(levels, level, p.ukey)
  {
    var g :| g in Files(levels[l]) && p in g.entries;
    FileBounds(g, p);
    var i :| 0 <= i < |levels[l]| && levels[l][i] == g;
    assert Covers(levels[l][i], p.ukey);
  }

  // ---- where older versions of an input can be ----

  ghost predicate LeftInNext(levels: seq<seq<File>>, c: Compaction, g: File)
    requires c.level + 1 < |levels|
  {
    g in levels[c.level + 1] && g !in c.inputs1
  }

  lemma NotInMemory(mem: set<Entry>, imm: set<Entry>, version: set<Entry>, t: Entry, p: Entry)
    requires InLayers(mem, imm, version) && t in version && p in mem + imm + version
    requires p.ukey == t.ukey && p.sequence < t.sequence
    ensures p in version
  {
  }

  lemma LeftIsNotOlder(fs: seq<File>, next: seq<File>, c: Compaction, t: Entry, p: Entry)
    requires AllValid(fs) && AllValid(next) && HeldPair(fs, next, c) && t in EntriesOf(Files(c.inputs0))
             && p.ukey == t.ukey
    ensures p in EntriesOf(Files(fs)) && p !in EntriesOf(Files(c.inputs0)) ==> p.sequence > t.sequence
  {
    if p in EntriesOf(Files(fs)) && p !in EntriesOf(Files(c.inputs0)) {
      var g :| g in Files(fs) && p in g.entries;
      assert p in EntriesOf(Files(fs) - Files(c.inputs0));
    }
  }

  lemma NotAbove(levels: seq<seq<File>>, c: Compaction, l: nat, t: Entry, p: Entry)
    requires ValidVersion(levels) && c.level + 1 < NUM_LEVELS && HeldInputs(levels, c) && l < NUM_LEVELS
    requires t in InputEntries(c) && p !in InputEntries(c) && p in EntriesOf(Files(levels[l]))
    requires p.ukey == t.ukey && p.sequence < t.sequence
    ensures c.level + 1 <= l
  {
    InputsWithin(levels, c);
    var first := t in EntriesOf(Files(c.inputs0));
    if first { LeftIsNotOlder(levels[c.level], levels[c.level + 1], c, t, p); }
    var m := if first then c.level else c.level + 1;
    if l < m { NewerPair(levels, l, m, p, t); }
  }

  lemma InputsHold(c: Compaction, g: File, p: Entry)
    requires p in g.entries
    ensures g in c.inputs1 ==> p in InputEntries(c)
  {
    if g in c.inputs1 { assert g in Files(c.inputs1) && p in EntriesOf(Files(c.inputs1)); }
  }

  lemma FirstInputsUpTo(fs: seq<File>, next: seq<File>, c: Compaction, t: Entry)
    requires AllValid(fs) && AllValid(next) && HeldPair(fs, next, c)
    ensures t in EntriesOf(Files(c.inputs0)) ==> t.ukey <= c.largest.ukey
  {
    if t in EntriesOf(Files(c.inputs0)) {
      var f :| f in Files(c.inputs0) && t in f.entries;
      FileBounds(f, t);
      assert AtOrBefore(Largest(f), c.largest);
    }
  }

  /** Whatever is stored outside the inputs and older than an input of the same user key
      lies below the output level, or in a file left there. */
  lemma OlderPlace(db: Db, c: Compaction, t: Entry, p: Entry) returns (l: nat, g: File)
    requires Layered(db) && c.level + 1 < NUM_LEVELS && HeldInputs(db.levels, c)
    requires t in InputEntries(c) && p in Untouched(db, c) && p.ukey == t.ukey && p.sequence < t.sequence
    ensures c.level + 1 <= l < NUM_LEVELS && p in EntriesOf(Files(db.levels[l]))
    ensures l == c.level + 1 ==> LeftInNext(db.levels, c, g) && p in g.entries
  {
    hide HeldInputs;
    hide InLayers;
    hide EntriesOf;
    hide Newer;
    InputsStored(db.levels, c);
    NotInMemory(Elements(db.mem), ImmEntries(db), VersionEntries(db.levels), t, p);
    l := SomeLevel(db.levels, p);
    NotAbove(db.levels, c, l, t, p);
    g := SomeFile(db.levels[l], p);
    InputsHold(c, g, p);
  }

  lemma SomeLevel(levels: seq<seq<File>>, p: Entry) returns (l: nat)
    requires |levels| == NUM_LEVELS && p in VersionEntries(levels)
    ensures l < NUM_LEVELS && p in EntriesOf(Files(levels[l]))
  {
    l :| 0 <= l < NUM_LEVELS && p in EntriesOf(Files(levels[l]));
  }

  lemma SomeFile(fs: seq<File>, p: Entry) returns (g: File)
    requires p in EntriesOf(Files(fs))
    ensures g in fs && p in g.entries
  {
    g :| g in Files(fs) && p in g.entries;
  }

  /** A file left in the output level with an older version of an input's user key lies
      behind all the inputs. */
  lemma OlderIsBehind(fs: seq<File>, next: seq<File>, c: Compaction, g: File, t: Entry, p: Entry)
    requires AllValid(fs) && AllValid(next) && Disjoint(Files(next)) && HeldPair(fs, next, c)
    requires g in next && g !in c.inputs1 && p in g.entries && t in InputEntries(c)
    requires p.ukey == t.ukey && p.sequence < t.sequence
    ensures c.largest.ukey < Smallest(g).ukey && Smallest(g).ukey == t.ukey
    ensures forall e :: e in InputEntries(c) ==> Before(e, Smallest(g))
  {
    FileBounds(g, p);
    SharedKeyOutside(fs, next, c, g, p, t);
    InputOutside(fs, next, c, g, t);
    forall e | e in InputEntries(c) ensures Before(e, Smallest(g)) { InputOutside(fs, next, c, g, e); }
  }

  /** So does a boundary file left behind. */
  lemma BoundaryIsBehind(fs: seq<File>, next: seq<File>, c: Compaction, f: File, g: File)
    requires AllValid(fs) && AllValid(next) && Disjoint(Files(next)) && HeldPair(fs, next, c)
    requires f in c.inputs1 && g in next && g !in c.inputs1 && IsBoundary(g, Largest(f))
    ensures forall e :: e in InputEntries(c) ==> Before(e, Smallest(g))
  {
    assert f in Files(c.inputs1) && Largest(f) in f.entries && Largest(f) in InputEntries(c);
    FileBounds(g, Smallest(g));
    SharedKeyOutside(fs, next, c, g, Smallest(g), Largest(f));
    InputOutside(fs, next, c, g, Largest(f));
    forall e | e in InputEntries(c) ensures Before(e, Smallest(g)) { InputOutside(fs, next, c, g, e); }
  }

  /** And then an input of that user key is in a file of the output level whose boundary
      file it is. */
  lemma BehindMeansBoundary(fs: seq<File>, next: seq<File>, c: Compaction, g: File, t: Entry) returns (f: File)
    requires AllValid(fs) && AllValid(next) && HeldPair(fs, next, c) && t in InputEntries(c)
    requires g in next && c.largest.ukey < Smallest(g).ukey && Smallest(g).ukey == t.ukey
    requires forall e :: e in InputEntries(c) ==> Before(e, Smallest(g))
    ensures f in c.inputs1 && t in f.entries && IsBoundary(g, Largest(f))
  {
    FirstInputsUpTo(fs, next, c, t);
    f :| f in Files(c.inputs1) && t in f.entries;
    FileBounds(f, t);
    assert Largest(f) in f.entries && Largest(f) in InputEntries(c);
  }

  // ---- the exact condition ----

  /** g is what FindSmallestBoundaryFile finds for f among the files left in the output level. */
  ghost predicate NextBoundary(levels: seq<seq<File>>, c: Compaction, f: File, g: File)
    requires HeldInputs(levels, c)
  {
    && f in c.inputs1 && LeftInNext(levels, c, g) && IsBoundary(g, Largest(f))
    && forall h :: LeftInNext(levels, c, h) && IsBoundary(h, Largest(f)) ==> !Before(Smallest(h), Smallest(g))
  }

  /** The compaction loses a deletion: behind f it leaves g, which begins with a value of
      f's last user key, and that key is deleted: at smallest_snapshot its newest entry is
      a tombstone among the inputs, with nothing below the output level. */
  ghost predicate LosesDeletion(db: Db, c: Compaction, floor: nat, f: File, g: File)
    requires SearchableLevels(db.levels) && HeldInputs(db.levels, c)
  {
    && NextBoundary(db.levels, c, f, g) && Smallest(g).op.Put?
    && IsBase(db.levels, c.level, Largest(f).ukey)
    && exists t :: t in InputEntries(c) && t.op.Delete? && Newest(Stored(db), Largest(f).ukey, floor, t)
  }

  lemma LeftIsUntouched(w: World, c: Compaction, g: File, e: Entry)
    requires Structure(w) && c.level + 1 < NUM_LEVELS && HeldInputs(w.db.levels, c)
    requires LeftInNext(w.db.levels, c, g) && e in g.entries
    ensures e in Untouched(w.db, c)
  {
    InputsWithin(w.db.levels, c);
    LeftoverHoldsNoInput(w.db.levels, c, c.level + 1, g, e);
    assert g in Files(w.db.levels[c.level + 1]) && e in EntriesOf(Files(w.db.levels[c.level + 1]));
  }

  lemma FilesAreValid(levels: seq<seq<File>>, c: Compaction, f: File, g: File)
    requires HeldInputs(levels, c) && f in c.inputs1 && LeftInNext(levels, c, g)
    ensures ValidFile(f) && ValidFile(g)
  {
  }

  /** In a file left behind f, an entry of f's last user key is no newer than the first
      entry of the boundary file. */
  lemma NoneNewerLeft(levels: seq<seq<File>>, c: Compaction, f: File, g: File, t: Entry, h: File, e: Entry)
    requires ValidVersion(levels) && c.level + 1 < NUM_LEVELS && HeldInputs(levels, c) && NextBoundary(levels, c, f, g)
    requires t in InputEntries(c) && LeftInNext(levels, c, h) && e in h.entries
    requires e.ukey == t.ukey == Largest(f).ukey && e.sequence < t.sequence
    ensures e.sequence <= Smallest(g).sequence
  {
    hide ValidVersion;
    hide HeldPair;
    LevelFacts(levels, c.level + 1);
    OlderIsBehind(levels[c.level], levels[c.level + 1], c, h, t, e);
    hide Disjoint;
    FilesAreValid(levels, c, f, g);
    assert f in Files(c.inputs1) && Largest(f) in f.entries && Largest(f) in InputEntries(c);
    assert IsBoundary(h, Largest(f));
    FileBounds(h, e);
  }

  lemma LevelsAreSearchable(w: World)
    requires Structure(w)
    ensures SearchableLevels(w.db.levels)
  {
  }

  lemma LosingIsUnsafe(w: World, c: Compaction, outs: seq<File>, floor: nat, f: File, g: File)
    requires Structure(w) && c.level + 1 < NUM_LEVELS && HeldInputs(w.db.levels, c)
    requires LosesDeletion(w.db, c, floor, f, g)
    ensures !SafeAction(w, Compact(c, outs, floor))
  {
    hide Layered;
    hide Recorded;
    hide HeldInputs;
    hide IsBase;
    hide InputEntries;
    hide Stored;
    LevelsAreSearchable(w);
    FilesAreValid(w.db.levels, c, f, g);
    var db, k, p := w.db, Largest(f).ukey, Smallest(g);
    var t :| t in InputEntries(c) && t.op.Delete? && Newest(Stored(db), k, floor, t);
    BoundaryOlder(w, c, f, g, t);
    InputsAreStored(db, c);
    NewestInput(Stored(db), InputEntries(c), k, floor, t);
    forall e | e in Untouched(db, c) && Visible(e, k, floor) ensures e.sequence <= p.sequence {
      UncoveredNewest(w, c, floor, f, g, t, e);
    }
    assert Resurrects(Untouched(db, c), InputEntries(c), floor, Base(db.levels, c.level), t, p);
  }

  lemma InputsAreStored(db: Db, c: Compaction)
    requires HeldInputs(db.levels, c)
    ensures InputEntries(c) <= Stored(db)
  {
    InputsStored(db.levels, c);
  }

  lemma NewestInput(stored: set<Entry>, inputs: set<Entry>, k: UserKey, floor: nat, t: Entry)
    requires t in inputs && Newest(stored, k, floor, t) && inputs <= stored
    ensures Newest(inputs, k, floor, t)
  {
  }

  /** A boundary file left behind begins with something older than any input of its key. */
  lemma BoundaryOlder(w: World, c: Compaction, f: File, h: File, t: Entry)
    requires Structure(w) && c.level + 1 < NUM_LEVELS && HeldInputs(w.db.levels, c)
    requires f in c.inputs1 && LeftInNext(w.db.levels, c, h) && IsBoundary(h, Largest(f)) && Smallest(h).ukey == t.ukey
    requires t in InputEntries(c)
    ensures Smallest(h) in Untouched(w.db, c) && Smallest(h).sequence < t.sequence
  {
    hide InLayers;
    hide InputEntries;
    hide HeldPair;
    hide ValidVersion;
    hide Stored;
    LevelFacts(w.db.levels, c.level + 1);
    LeftIsUntouched(w, c, h, Smallest(h));
    InputsAreStored(w.db, c);
    BoundaryOlderIn(w.db.levels[c.level], w.db.levels[c.level + 1], c, f, h, t, w.history);
  }

  lemma BoundaryOlderIn(fs: seq<File>, next: seq<File>, c: Compaction, f: File, h: File, t: Entry, es: set<Entry>)
    requires AllValid(fs) && AllValid(next) && Disjoint(Files(next)) && HeldPair(fs, next, c)
    requires f in c.inputs1 && h in next && h !in c.inputs1 && IsBoundary(h, Largest(f)) && Smallest(h).ukey == t.ukey
    requires t in InputEntries(c) && DistinctSequences(es) && t in es && Smallest(h) in es
    ensures Smallest(h).sequence < t.sequence
  {
    BoundaryIsBehind(fs, next, c, f, h);
    OlderAfter(es, t, Smallest(h));
  }

  lemma OlderAfter(es: set<Entry>, t: Entry, p: Entry)
    requires DistinctSequences(es) && t in es && p in es && t.ukey == p.ukey && Before(t, p)
    ensures p.sequence < t.sequence
  {
  }

  lemma UncoveredNewest(w: World, c: Compaction, floor: nat, f: File, g: File, t: Entry, e: Entry)
    requires Structure(w) && c.level + 1 < NUM_LEVELS && HeldInputs(w.db.levels, c)
             && NextBoundary(w.db.levels, c, f, g)
    requires IsBase(w.db.levels, c.level, Largest(f).ukey)
    requires t in InputEntries(c) && Newest(Stored(w.db), Largest(f).ukey, floor, t)
    requires e in Untouched(w.db, c) && Visible(e, Largest(f).ukey, floor)
    ensures e.sequence <= Smallest(g).sequence
  {
    assert e != t && e.sequence != t.sequence;
    var l, h := OlderPlace(w.db, c, t, e);
    if l == c.level + 1 {
      NoneNewerLeft(w.db.levels, c, f, g, t, h, e);
    } else {
      BaseMeansNothingBelow(w.db.levels, c.level, l, e);
    }
  }

  lemma ResurrectsParts(rest: set<Entry>, inputs: set<Entry>, floor: nat, base: UserKey -> bool, t: Entry, p: Entry)
    requires Resurrects(rest, inputs, floor, base, t, p)
    ensures t in inputs && p in rest && p.ukey == t.ukey && p.sequence < t.sequence <= floor
  {
  }

  lemma UnsafeLoses(w: World, c: Compaction, floor: nat, t: Entry, p: Entry) returns (f: File, g: File)
    requires Structure(w) && c.level + 1 < NUM_LEVELS && HeldInputs(w.db.levels, c)
    requires Resurrects(Untouched(w.db, c), InputEntries(c), floor, Base(w.db.levels, c.level), t, p)
    ensures LosesDeletion(w.db, c, floor, f, g)
  {
    hide ValidVersion;
    hide InLayers;
    hide HeldPair;
    hide Newest;
    hide Recorded;
    hide Stored;
    hide Untouched;
    hide InputEntries;
    LevelsAreSearchable(w);
    ResurrectsParts(Untouched(w.db, c), InputEntries(c), floor, Base(w.db.levels, c.level), t, p);
    var db, fs, next := w.db, w.db.levels[c.level], w.db.levels[c.level + 1];
    LevelFacts(db.levels, c.level + 1);
    var l, h := OlderPlace(db, c, t, p);
    if l > c.level + 1 { BaseMeansNothingBelow(db.levels, c.level, l, p); }
    g := h;
    OlderIsBehind(fs, next, c, g, t, p);
    f := BehindMeansBoundary(fs, next, c, g, t);
    FileBounds(g, p);
    FirstOfKey(w, c, floor, f, g, t, p);
    StoredNewest(w, c, floor, t, p);
  }

  /** The newest uncovered entry is the first entry of the first boundary file. */
  lemma FirstOfKey(w: World, c: Compaction, floor: nat, f: File, g: File, t: Entry, p: Entry)
    requires Structure(w) && c.level + 1 < NUM_LEVELS && HeldInputs(w.db.levels, c)
    requires f in c.inputs1 && LeftInNext(w.db.levels, c, g) && IsBoundary(g, Largest(f)) && Smallest(g).ukey == t.ukey
    requires t in InputEntries(c) && t.sequence <= floor && p in g.entries
    requires Newest(Untouched(w.db, c), t.ukey, floor, p)
    ensures Smallest(g) == p && NextBoundary(w.db.levels, c, f, g)
  {
    forall h | LeftInNext(w.db.levels, c, h) && IsBoundary(h, Largest(f))
      ensures Smallest(h).ukey == p.ukey && Smallest(h).sequence <= p.sequence && Smallest(h) in w.history
    {
      BoundaryOlder(w, c, f, h, t);
      assert Visible(Smallest(h), t.ukey, floor);
    }
    FileBounds(g, p);
    assert p in w.history && DistinctSequences(w.history);
    hide Structure;
    hide HeldInputs;
    AtMostAsNew(w.history, Smallest(g), p);
    forall h | LeftInNext(w.db.levels, c, h) && IsBoundary(h, Largest(f)) ensures !Before(Smallest(h), Smallest(g)) {
      NotBefore(w.history, Smallest(h), p);
    }
  }

  lemma AtMostAsNew(es: set<Entry>, e: Entry, p: Entry)
    requires DistinctSequences(es) && e in es && p in es && e.ukey == p.ukey && e.sequence <= p.sequence
             && AtOrBefore(e, p)
    ensures e == p
  {
  }

  lemma NotBefore(es: set<Entry>, e: Entry, p: Entry)
    requires DistinctSequences(es) && e in es && p in es && e.ukey == p.ukey && e.sequence <= p.sequence
    ensures !Before(e, p)
  {
  }

  lemma StoredNewest(w: World, c: Compaction, floor: nat, t: Entry, p: Entry)
    requires Structure(w) && HeldInputs(w.db.levels, c)
    requires Resurrects(Untouched(w.db, c), InputEntries(c), floor, Base(w.db.levels, c.level), t, p)
    ensures Newest(Stored(w.db), t.ukey, floor, t)
  {
    InputsStored(w.db.levels, c);
    forall e | e in Stored(w.db) && Visible(e, t.ukey, floor) ensures e.sequence <= t.sequence {
      if e !in InputEntries(c) { assert e in Untouched(w.db, c); }
    }
  }

  /** Which compactions keep every read, in terms of the picked files. */
  lemma SafeIffNoLoss(w: World, c: Compaction, outs: seq<File>, floor: nat)
    requires Structure(w) && c.level + 1 < NUM_LEVELS && HeldInputs(w.db.levels, c)
    ensures SafeAction(w, Compact(c, outs, floor)) <==> forall f, g :: !LosesDeletion(w.db, c, floor, f, g)
  {
    var rest, inputs, base := Untouched(w.db, c), InputEntries(c), Base(w.db.levels, c.level);
    if f, g :| LosesDeletion(w.db, c, floor, f, g) { LosingIsUnsafe(w, c, outs, floor, f, g); }
    if t, p :| Resurrects(rest, inputs, floor, base, t, p) { var f, g := UnsafeLoses(w, c, floor, t, p); }
  }

  /** A check that needs no entries: no boundary file is left in the output level. */
  lemma CompleteInputsAreSafe(w: World, c: Compaction, outs: seq<File>, floor: nat)
    requires Structure(w) && c.level + 1 < NUM_LEVELS && HeldInputs(w.db.levels, c)
    requires NextLevelComplete(w.db.levels[c.level + 1], c)
    ensures SafeAction(w, Compact(c, outs, floor))
  {
    SafeIffNoLoss(w, c, outs, floor);
    hide Structure;
    hide SafeAction;
    forall f, g ensures !LosesDeletion(w.db, c, floor, f, g) { NoBoundaryNoLoss(w.db, c, floor, f, g); }
  }

  lemma NoBoundaryNoLoss(db: Db, c: Compaction, floor: nat, f: File, g: File)
    requires SearchableLevels(db.levels) && HeldInputs(db.levels, c) && NextLevelComplete(db.levels[c.level + 1], c)
    ensures !LosesDeletion(db, c, floor, f, g)
  {
    hide Newest;
    hide Stored;
    hide IsBase;
    hide InputEntries;
    hide HeldPair;
    if f in c.inputs1 && LeftInNext(db.levels, c, g) {
      FilesAreValid(db.levels, c, f, g);
      assert !IsBoundary(g, Largest(f));
    }
  }

  /** The action is a compaction that loses a deletion. */
  ghost predicate Loses(w: World, a: Action)
    requires SearchableLevels(w.db.levels)
  {
    a.Compact? && a.c.level + 1 < NUM_LEVELS && HeldInputs(w.db.levels, a.c)
        && exists f, g :: LosesDeletion(w.db, a.c, a.floor, f, g)
  }

  lemma ActionSafeIff(w: World, a: Action, w': World)
    requires Structure(w) && Step(w, a, w')
    ensures SafeAction(w, a) <==> !Loses(w, a)
  {
    hide Structure;
    hide SafeAction;
    hide LosesDeletion;
    hide HeldInputs;
    hide ClosedInputs;
    hide SearchableLevels;
    LevelsAreSearchable(w);
    if a.Compact? {
      CompactionIsHeld(w, a, w');
      SafeIffNoLoss(w, a.c, a.outs, a.floor);
    } else {
      OthersAreSafe(w, a);
    }
  }

  lemma StepSafeIff(ws: seq<World>, acts: seq<Action>, i: nat)
    requires Run(ws, acts) && i < |acts|
    ensures SearchableLevels(ws[i].db.levels) && (SafeAction(ws[i], acts[i]) <==> !Loses(ws[i], acts[i]))
  {
    hide Structure;
    hide SafeAction;
    hide SearchableLevels;
    hide Loses;
    RunStructure(ws, acts, i);
    LevelsAreSearchable(ws[i]);
    ActionSafeIff(ws[i], acts[i], ws[i + 1]);
  }

  lemma CompactionIsHeld(w: World, a: Action, w': World)
    requires SearchableLevels(w.db.levels) && Step(w, a, w') && a.Compact?
    ensures a.c.level + 1 < NUM_LEVELS && HeldInputs(w.db.levels, a.c)
  {
    assert CompactStep(w, a.c, a.outs, a.floor, w');
  }

  lemma OthersAreSafe(w: World, a: Action)
    requires SearchableLevels(w.db.levels) && !a.Compact?
    ensures SafeAction(w, a)
  {
  }

  /** All states of a run read as the flat history says exactly when none of its
      compactions loses a deletion. */
  lemma RunKeepsReadsIff(ws: seq<World>, acts: seq<Action>)
    requires Run(ws, acts)
    ensures (forall i :: 0 <= i < |ws| ==> ReadsAgree(ws[i]))
            <==> (forall i :: 0 <= i < |acts| ==> !Loses(ws[i], acts[i]))
  {
    RunReadsIff(ws, acts);
    forall i | 0 <= i < |acts|
      ensures SearchableLevels(ws[i].db.levels) && (SafeAction(ws[i], acts[i]) <==> !Loses(ws[i], acts[i]))
    {
      StepSafeIff(ws, acts, i);
    }
  }
}
