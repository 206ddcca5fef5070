/** What flushing a memtable, moving a file and installing a compaction do to the levels. */
module VersionSteps {
  import opened InternalKeys
  import opened Lists
  import opened SnapshotReads
  import opened Versions
  import opened CompactionInputs
  import opened CompactionRules
  import opened CompactionLoop
  import opened VersionBuilder

  /** LogAndApply installs `edit`. */
  ghost predicate Edited(levels: seq<seq<File>>, edit: VersionEdit, levels': seq<seq<File>>) {
    && |levels'| == |levels| == NUM_LEVELS
    && forall l :: 0 <= l < NUM_LEVELS ==>
         SortedFiles(levels'[l]) && Files(levels'[l]) == NextFiles(Files(levels[l]), edit, l)
  }

  /** Level l loses and gains these files. */
  ghost predicate Changed(levels: seq<seq<File>>, levels': seq<seq<File>>, l: nat, out: set<File>, into: set<File>)
    requires l < |levels| == |levels'|
  {
    Files(levels'[l]) == Files(levels[l]) - out + into
  }

  // ---- pure facts about file sets ----

  lemma NewerApart(a: set<Entry>, b: set<Entry>)
    requires Newer(a, b)
    ensures a !! b
  {
  }

  lemma {:induction false} EntriesUnion(a: set<File>, b: set<File>)
    ensures EntriesOf(a + b) == EntriesOf(a) + EntriesOf(b)
  {
  }

  lemma EntriesMonotone(a: set<File>, b: set<File>)
    requires a <= b
    ensures EntriesOf(a) <= EntriesOf(b)
  {
  }

  // ---- compaction: files taken from two levels, outputs put in the lower ----

  /** A file of the output level that was not taken lies wholly before or wholly after every input. */
  lemma LeftoverOutside(fs: seq<File>, next: seq<File>, c: Compaction, g: File, f: File)
    requires AllValid(fs) && AllValid(next) && Disjoint(Files(next)) && HeldPair(fs, next, c)
    requires g in next && g !in c.inputs1 && f in c.inputs1
    ensures Largest(g).ukey < c.smallest.ukey ==> Before(Largest(g), Smallest(f))
    ensures c.largest.ukey < Smallest(g).ukey ==> Before(Largest(f), Smallest(g))
  {
    assert Overlaps(f, UserRange(c.smallest, c.largest));
    assert f in Files(next) && g in Files(next) && f != g;
    assert Apart(f, g);
    FileBounds(f, Smallest(f));
    FileBounds(g, Smallest(g));
  }

  ghost function InputEntries(c: Compaction): set<Entry> { EntriesOf(Files(c.inputs0)) + EntriesOf(Files(c.inputs1)) }

  lemma InputOutside(fs: seq<File>, next: seq<File>, c: Compaction, g: File, e: Entry)
    requires AllValid(fs) && AllValid(next) && Disjoint(Files(next)) && HeldPair(fs, next, c)
    requires g in next && g !in c.inputs1 && e in InputEntries(c)
    ensures Largest(g).ukey < c.smallest.ukey ==> Before(Largest(g), e)
    ensures c.largest.ukey < Smallest(g).ukey ==> Before(e, Smallest(g))
  {
    if e in EntriesOf(Files(c.inputs0)) {
      var f :| f in Files(c.inputs0) && e in f.entries;
      FileBounds(f, e);
      assert AtOrBefore(c.smallest, Smallest(f)) && AtOrBefore(Largest(f), c.largest);
    } else {
      var f :| f in Files(c.inputs1) && e in f.entries;
      FileBounds(f, e);
      LeftoverOutside(fs, next, c, g, f);
    }
  }

  /** The output o holds smaller and larger user keys than the file g. */
  predicate ReachesAround(o: File, g: File)
    requires ValidFile(o) && ValidFile(g)
  {
    Smallest(o).ukey < Smallest(g).ukey && Largest(g).ukey < Largest(o).ukey
  }

  /** An output made of input entries stays apart from a file that was not taken, unless
      it lies around it. */
  lemma ApartUnlessAround(fs: seq<File>, next: seq<File>, c: Compaction, g: File, o: File)
    requires AllValid(fs) && AllValid(next) && Disjoint(Files(next)) && HeldPair(fs, next, c)
    requires g in next && g !in c.inputs1
    requires ValidFile(o) && forall e :: e in o.entries ==> e in InputEntries(c)
    ensures Apart(g, o) <==> !ReachesAround(o, g)
    ensures ReachesAround(o, g) ==> Overlaps(g, UserRange(c.smallest, c.largest))
  {
    assert Smallest(o) in o.entries && Largest(o) in o.entries;
    FileBounds(g, Smallest(g));
    if Overlaps(g, UserRange(c.smallest, c.largest)) {
      GapKeys(c, g, Smallest(o));
      GapKeys(c, g, Largest(o));
    } else {
      InputOutside(fs, next, c, g, Smallest(o));
      InputOutside(fs, next, c, g, Largest(o));
    }
  }

  /** No input has a user key of a file in a gap. */
  lemma GapKeys(c: Compaction, g: File, e: Entry)
    requires AllValid(c.inputs0) && AllValid(c.inputs1) && ValidFile(g) && OutOfTheWay(c, g)
    requires Overlaps(g, UserRange(c.smallest, c.largest)) && e in InputEntries(c)
    ensures e.ukey < Smallest(g).ukey || Largest(g).ukey < e.ukey
  {
    var h :| (h in c.inputs0 || h in c.inputs1) && e in h.entries;
    FileBounds(h, e);
    assert UserApart(g, h);
  }

  /** A file with a user key of the inputs lies outside their range. */
  lemma SharedKeyOutside(fs: seq<File>, next: seq<File>, c: Compaction, g: File, p: Entry, t: Entry)
    requires AllValid(fs) && AllValid(next) && HeldPair(fs, next, c)
    requires g in next && g !in c.inputs1 && p in g.entries && t in InputEntries(c) && p.ukey == t.ukey
    ensures !Overlaps(g, UserRange(c.smallest, c.largest))
  {
    FileBounds(g, p);
    if Overlaps(g, UserRange(c.smallest, c.largest)) { GapKeys(c, g, t); }
  }

  function EntriesList(outs: seq<File>): seq<seq<Entry>> { seq(|outs|, i requires 0 <= i < |outs| => outs[i].entries) }

  lemma ConcatSplit(outs: seq<File>)
    requires outs != []
    ensures Concat(EntriesList(outs)) == Concat(EntriesList(outs[..|outs| - 1])) + outs[|outs| - 1].entries
  {
    assert EntriesList(outs)[..|outs| - 1] == EntriesList(outs[..|outs| - 1]);
  }

  lemma {:induction false} CutEntries(outs: seq<File>)
    ensures EntriesOf(Files(outs)) == Elements(Concat(EntriesList(outs)))
  {
    if outs != [] {
      var front, last := outs[..|outs| - 1], outs[|outs| - 1];
      ConcatSplit(outs);
      CutEntries(front);
      assert outs == front + [last];
      assert Files(outs) == Files(front) + {last};
      EntriesUnion(Files(front), {last});
      assert EntriesOf({last}) == Elements(last.entries);
    }
  }

  lemma SortedSplit(a: seq<Entry>, b: seq<Entry>)
    requires Sorted(a + b)
    ensures Sorted(a) && Sorted(b)
    ensures forall e, d :: e in a && d in b ==> Before(e, d)
  {
    assert forall i :: 0 <= i < |a| ==> (a + b)[i] == a[i];
    assert forall i :: 0 <= i < |b| ==> (a + b)[|a| + i] == b[i];
  }

  /** Cutting a sorted list gives valid files, one after the other. */
  lemma {:induction false} CutFiles(outs: seq<File>)
    requires Sorted(Concat(EntriesList(outs))) && forall o :: o in outs ==> o.entries != []
    ensures AllValid(outs)
    ensures forall i, j :: 0 <= i < j < |outs| ==> Before(Largest(outs[i]), Smallest(outs[j]))
  {
    if outs != [] {
      var n := |outs| - 1;
      var front, last := outs[..n], outs[n];
      ConcatSplit(outs);
      SortedSplit(Concat(EntriesList(front)), last.entries);
      CutFiles(front);
      CutEntries(front);
      assert last in outs;
      forall i | 0 <= i < n ensures ValidFile(outs[i]) && Before(Largest(outs[i]), Smallest(last)) {
        assert front[i] == outs[i] && front[i] in Files(front);
        assert Largest(front[i]) in front[i].entries && Largest(front[i]) in EntriesOf(Files(front));
        assert Largest(outs[i]) in Concat(EntriesList(front)) && Smallest(last) in last.entries;
      }
      assert forall i, j :: 0 <= i < j < n ==> Before(Largest(front[i]), Smallest(front[j]));
    }
  }

  /** What a compaction step does, on file sets. */
  ghost predicate Compacted(levels: seq<seq<File>>, c: Compaction, outs: set<File>, levels': seq<seq<File>>) {
    && HeldInputs(levels, c)
    && |levels'| == |levels| == NUM_LEVELS
    && (forall l :: 0 <= l < NUM_LEVELS ==> SortedFiles(levels'[l]))
    && Changed(levels, levels', c.level, Files(c.inputs0), {})
    && Changed(levels, levels', c.level + 1, Files(c.inputs1), outs)
    && forall l :: 0 <= l < NUM_LEVELS && l != c.level && l != c.level + 1 ==> Files(levels'[l]) == Files(levels[l])
  }

  lemma InputsWithin(levels: seq<seq<File>>, c: Compaction)
    requires HeldInputs(levels, c)
    ensures Files(c.inputs0) <= Files(levels[c.level]) && Files(c.inputs1) <= Files(levels[c.level + 1])
    ensures EntriesOf(Files(c.inputs0)) <= EntriesOf(Files(levels[c.level]))
    ensures EntriesOf(Files(c.inputs1)) <= EntriesOf(Files(levels[c.level + 1]))
  {
    EntriesMonotone(Files(c.inputs0), Files(levels[c.level]));
    EntriesMonotone(Files(c.inputs1), Files(levels[c.level + 1]));
  }

  /** Where an entry found after the step was before it: on the same level, or one
      level up in a file that was taken. */
  lemma EntryOrigin(levels: seq<seq<File>>, c: Compaction, outs: set<File>, levels': seq<seq<File>>, l: nat, e: Entry)
    returns (i: nat)
    requires l < NUM_LEVELS && Compacted(levels, c, outs, levels') && EntriesOf(outs) <= InputEntries(c)
    requires e in EntriesOf(Files(levels'[l]))
    ensures i < NUM_LEVELS && e in EntriesOf(Files(levels[i]))
    ensures i == l || (l == c.level + 1 && i == c.level && e in EntriesOf(Files(c.inputs0)))
    ensures l == c.level ==> e in EntriesOf(Files(levels[l]) - Files(c.inputs0))
  {
    hide SortedFiles;
    InputsWithin(levels, c);
    var f :| f in Files(levels'[l]) && e in f.entries;
    assert f in outs || f in Files(levels[l]);
    if f in Files(levels[l]) {
      i := l;
      assert l == c.level ==> f in Files(levels[l]) - Files(c.inputs0);
    } else {
      assert e in EntriesOf(outs);
      i := if e in EntriesOf(Files(c.inputs0)) then c.level else c.level + 1;
    }
  }

  lemma NewerPair(levels: seq<seq<File>>, i: nat, j: nat, e: Entry, d: Entry)
    requires ValidVersion(levels) && i < j < NUM_LEVELS && e.ukey == d.ukey
    requires e in EntriesOf(Files(levels[i])) && d in EntriesOf(Files(levels[j]))
    ensures e.sequence > d.sequence
  {
    assert Newer(EntriesOf(Files(levels[i])), EntriesOf(Files(levels[j])));
  }

  /** Smaller levels stay newer. */
  lemma CompactedNewer(levels: seq<seq<File>>, c: Compaction, outs: set<File>, levels': seq<seq<File>>,
                       l: nat, m: nat, e: Entry, d: Entry)
    requires ValidVersion(levels) && Compacted(levels, c, outs, levels') && l < m < NUM_LEVELS
    requires EntriesOf(outs) <= InputEntries(c)
    requires e in EntriesOf(Files(levels'[l])) && d in EntriesOf(Files(levels'[m])) && e.ukey == d.ukey
    ensures e.sequence > d.sequence
  {
    var i := EntryOrigin(levels, c, outs, levels', l, e);
    var j := EntryOrigin(levels, c, outs, levels', m, d);
    if i < j {
      NewerPair(levels, i, j, e, d);
    } else {
      assert Newer(EntriesOf(Files(levels[c.level]) - Files(c.inputs0)), EntriesOf(Files(c.inputs0)));
    }
  }

  /** The outputs stay apart from what is left in the output level. */
  ghost predicate LeftApart(levels: seq<seq<File>>, c: Compaction, outs: set<File>)
    requires c.level + 1 < |levels| && AllValid(levels[c.level + 1]) && ValidFiles(outs)
  {
    forall g, o :: g in Files(levels[c.level + 1]) - Files(c.inputs1) && o in outs ==> Apart(g, o)
  }

  lemma CompactedApart(levels: seq<seq<File>>, c: Compaction, outs: set<File>, levels': seq<seq<File>>,
                       l: nat, f: File, g: File)
    requires ValidVersion(levels) && Compacted(levels, c, outs, levels') && 1 <= l < NUM_LEVELS
    requires ValidFiles(outs) && Disjoint(outs) && LeftApart(levels, c, outs)
    requires f in Files(levels'[l]) && g in Files(levels'[l]) && f != g && (f in outs ==> g in outs)
    ensures ValidFile(f) && ValidFile(g) && Apart(f, g)
  {
    LevelFacts(levels, l);
    if l != c.level + 1 || g !in outs {
      assert f in Files(levels[l]) && g in Files(levels[l]);
    }
  }

  lemma VersionEntriesBound(levels: seq<seq<File>>, c: Compaction, outs: set<File>, levels': seq<seq<File>>)
    requires Compacted(levels, c, outs, levels') && EntriesOf(outs) <= InputEntries(c)
    ensures VersionEntries(levels') <= VersionEntries(levels)
  {
    forall e | e in VersionEntries(levels') ensures e in VersionEntries(levels) {
      var l :| 0 <= l < |levels'| && e in EntriesOf(Files(levels'[l]));
      var i := EntryOrigin(levels, c, outs, levels', l, e);
    }
  }

  lemma CompactedAllNewer(levels: seq<seq<File>>, c: Compaction, outs: set<File>, levels': seq<seq<File>>, l: nat,
                          m: nat)
    requires ValidVersion(levels) && Compacted(levels, c, outs, levels') && l < m < NUM_LEVELS
    requires EntriesOf(outs) <= InputEntries(c)
    ensures Newer(EntriesOf(Files(levels'[l])), EntriesOf(Files(levels'[m])))
  {
    forall e, d | e in EntriesOf(Files(levels'[l])) && d in EntriesOf(Files(levels'[m])) && e.ukey == d.ukey
      ensures e.sequence > d.sequence
    { CompactedNewer(levels, c, outs, levels', l, m, e, d); }
  }

  lemma CompactedDisjoint(levels: seq<seq<File>>, c: Compaction, outs: set<File>, levels': seq<seq<File>>, l: nat)
    requires ValidVersion(levels) && Compacted(levels, c, outs, levels') && 1 <= l < NUM_LEVELS
    requires ValidFiles(outs) && Disjoint(outs) && LeftApart(levels, c, outs)
    ensures ValidFiles(Files(levels'[l])) && Disjoint(Files(levels'[l]))
  {
    forall f, g | f in Files(levels'[l]) && g in Files(levels'[l]) && f != g ensures Apart(f, g) {
      if f in outs && g !in outs { CompactedApart(levels, c, outs, levels', l, g, f); }
      else { CompactedApart(levels, c, outs, levels', l, f, g); }
    }
  }

  lemma CompactedLevel0(levels: seq<seq<File>>, c: Compaction, outs: set<File>, levels': seq<seq<File>>)
    requires ValidVersion(levels) && Compacted(levels, c, outs, levels')
    ensures NewerByNumber(Files(levels'[0]))
  {
    assert Files(levels'[0]) <= Files(levels[0]);
    assert NewerByNumber(Files(levels[0]));
  }

  lemma CompactedDistinct(levels: seq<seq<File>>, c: Compaction, outs: set<File>, levels': seq<seq<File>>)
    requires ValidVersion(levels) && Compacted(levels, c, outs, levels') && EntriesOf(outs) <= InputEntries(c)
    ensures DistinctSequences(VersionEntries(levels'))
  {
    VersionEntriesBound(levels, c, outs, levels');
    assert DistinctSequences(VersionEntries(levels));
  }

  lemma ValidParts(levels: seq<seq<File>>)
    requires |levels| == NUM_LEVELS && forall l :: 0 <= l < NUM_LEVELS ==> SortedFiles(levels[l])
    requires forall l :: 1 <= l < NUM_LEVELS ==> ValidFiles(Files(levels[l])) && Disjoint(Files(levels[l]))
    requires NumbersUnique(levels) && DistinctSequences(VersionEntries(levels)) && NewerByNumber(Files(levels[0]))
    requires forall l, m :: 0 <= l < m < NUM_LEVELS ==> Newer(EntriesOf(Files(levels[l])), EntriesOf(Files(levels[m])))
    ensures ValidVersion(levels)
  {
  }

  /** Closed inputs have no gaps for anything to be left in. */
  lemma ClosedLeavesApart(levels: seq<seq<File>>, c: Compaction, outs: set<File>)
    requires c.level + 1 < NUM_LEVELS && SearchableLevels(levels) && ClosedInputs(levels, c)
    requires ValidFiles(outs) && EntriesOf(outs) <= InputEntries(c)
    ensures HeldInputs(levels, c) && LeftApart(levels, c, outs)
  {
    ClosedIsHeld(levels, c);
    forall g, o | g in Files(levels[c.level + 1]) - Files(c.inputs1) && o in outs ensures Apart(g, o) {
      OutputOfInputs(c, outs, o);
      ApartUnlessAround(levels[c.level], levels[c.level + 1], c, g, o);
    }
  }

  lemma OutputOfInputs(c: Compaction, outs: set<File>, o: File)
    requires EntriesOf(outs) <= InputEntries(c) && o in outs
    ensures forall e :: e in o.entries ==> e in InputEntries(c)
  {
    forall e | e in o.entries ensures e in InputEntries(c) { assert e in EntriesOf(outs); }
  }

  /** Some output lies around a file that is left in the output level. */
  ghost predicate Encloses(levels: seq<seq<File>>, c: Compaction, outs: set<File>)
    requires c.level + 1 < |levels| && AllValid(levels[c.level + 1]) && ValidFiles(outs)
  {
    exists g, o :: g in Files(levels[c.level + 1]) - Files(c.inputs1) && o in outs && ReachesAround(o, g)
  }

  lemma ApartIffNoneEnclosed(levels: seq<seq<File>>, c: Compaction, outs: set<File>)
    requires c.level + 1 < NUM_LEVELS && SearchableLevels(levels) && HeldInputs(levels, c)
    requires ValidFiles(outs) && EntriesOf(outs) <= InputEntries(c)
    ensures LeftApart(levels, c, outs) <==> !Encloses(levels, c, outs)
  {
    forall g, o | g in Files(levels[c.level + 1]) - Files(c.inputs1) && o in outs
      ensures Apart(g, o) <==> !ReachesAround(o, g)
    {
      OutputOfInputs(c, outs, o);
      ApartUnlessAround(levels[c.level], levels[c.level + 1], c, g, o);
    }
  }

  /** An output that is not apart from what is left makes the level overlap. */
  lemma OverlapsAfter(levels: seq<seq<File>>, c: Compaction, outs: set<File>, levels': seq<seq<File>>)
    requires c.level + 1 < NUM_LEVELS && Compacted(levels, c, outs, levels') && ValidFiles(outs)
    requires outs !! Files(levels[c.level + 1]) && SearchableLevels(levels')
    ensures LeftApart(levels, c, outs)
  {
    forall g, o | g in Files(levels[c.level + 1]) - Files(c.inputs1) && o in outs ensures Apart(g, o) {
      assert g in Files(levels'[c.level + 1]) && o in Files(levels'[c.level + 1]) && g != o;
    }
  }

  /** Installing a compaction, or a trivial move, keeps the version searchable,
      whatever happened to the entries on the way. */
  lemma CompactionKeepsVersion(levels: seq<seq<File>>, c: Compaction, outs: set<File>, levels': seq<seq<File>>)
    requires ValidVersion(levels) && Compacted(levels, c, outs, levels')
    requires ValidFiles(outs) && Disjoint(outs) && EntriesOf(outs) <= InputEntries(c)
    requires NumbersUnique(levels') && LeftApart(levels, c, outs)
    ensures ValidVersion(levels')
  {
    forall l, m | 0 <= l < m < NUM_LEVELS ensures Newer(EntriesOf(Files(levels'[l])), EntriesOf(Files(levels'[m]))) {
      CompactedAllNewer(levels, c, outs, levels', l, m);
    }
    forall l | 1 <= l < NUM_LEVELS ensures ValidFiles(Files(levels'[l])) && Disjoint(Files(levels'[l])) {
      CompactedDisjoint(levels, c, outs, levels', l);
    }
    CompactedDistinct(levels, c, outs, levels');
    CompactedLevel0(levels, c, outs, levels');
    ValidParts(levels');
  }

  // ---- flushing a memtable ----

  ghost predicate UserOverlap(fs: set<File>, f: File)
    requires ValidFiles(fs) && ValidFile(f)
  {
    exists g :: g in fs && !UserApart(f, g)
  }

  /** PickLevelForMemTableOutput: level 0, or a level no file at or above which meets the new file. */
  ghost predicate LevelAllowed(levels: seq<seq<File>>, f: File, level: nat)
    requires SearchableLevels(levels) && ValidFile(f)
  {
    level == 0 || (level < NUM_LEVELS && forall l :: 0 <= l <= level ==> !UserOverlap(Files(levels[l]), f))
  }

  ghost predicate Flushed(levels: seq<seq<File>>, f: File, level: nat, levels': seq<seq<File>>) {
    && |levels'| == |levels| == NUM_LEVELS && level < NUM_LEVELS
    && forall l :: 0 <= l < NUM_LEVELS ==>
         SortedFiles(levels'[l]) && Files(levels'[l]) == Files(levels[l]) + (if l == level then {f} else {})
  }

  lemma UserApartNewer(fs: set<File>, f: File)
    requires ValidFiles(fs) && ValidFile(f) && !UserOverlap(fs, f)
    ensures Newer(EntriesOf(fs), Elements(f.entries))
    ensures forall g :: g in fs ==> Apart(f, g)
  {
    forall g | g in fs ensures UserApart(f, g) {}
    forall e, d | e in EntriesOf(fs) && d in f.entries ensures e.ukey != d.ukey {
      var g :| g in fs && e in g.entries;
      FileBounds(g, e);
      FileBounds(f, d);
    }
  }

  lemma FlushedNewer(levels: seq<seq<File>>, f: File, level: nat, levels': seq<seq<File>>,
                     l: nat, m: nat, e: Entry, d: Entry)
    requires ValidVersion(levels) && ValidFile(f) && LevelAllowed(levels, f, level)
    requires Flushed(levels, f, level, levels') && l < m < NUM_LEVELS
    requires Newer(Elements(f.entries), VersionEntries(levels))
    requires e in EntriesOf(Files(levels'[l])) && d in EntriesOf(Files(levels'[m])) && e.ukey == d.ukey
    ensures e.sequence > d.sequence
  {
    hide NumbersUnique;
    hide DistinctSequences;
    hide NewerByNumber;
    hide Disjoint;
    var fe :| fe in Files(levels'[l]) && e in fe.entries;
    var fd :| fd in Files(levels'[m]) && d in fd.entries;
    if fe in Files(levels[l]) && fd in Files(levels[m]) {
      NewerPair(levels, l, m, e, d);
    } else if fe in Files(levels[l]) {
      assert SortedFiles(levels[l]);
      UserApartNewer(Files(levels[l]), f);
      assert e in EntriesOf(Files(levels[l])) && d in Elements(f.entries);
    } else {
      assert d in EntriesOf(Files(levels[m])) && d in VersionEntries(levels) && e in Elements(f.entries);
    }
  }

  lemma FlushedLevel0(levels: seq<seq<File>>, f: File, level: nat, levels': seq<seq<File>>, a: File, b: File)
    requires ValidVersion(levels) && Flushed(levels, f, level, levels')
    requires Newer(Elements(f.entries), VersionEntries(levels))
    requires forall g :: g in levels[0] ==> g.number < f.number
    requires a in Files(levels'[0]) && b in Files(levels'[0]) && a.number > b.number
    ensures Newer(Elements(a.entries), Elements(b.entries))
  {
    assert b in Files(levels[0]);
    if a in Files(levels[0]) {
      assert NewerByNumber(Files(levels[0]));
    } else {
      forall d | d in b.entries ensures d in VersionEntries(levels) { assert d in EntriesOf(Files(levels[0])); }
    }
  }

  /** A memtable newer than every file may go to the picked level. */
  lemma FlushKeepsVersion(levels: seq<seq<File>>, f: File, level: nat, levels': seq<seq<File>>)
    requires ValidVersion(levels) && ValidFile(f) && LevelAllowed(levels, f, level)
    requires Flushed(levels, f, level, levels')
    requires Newer(Elements(f.entries), VersionEntries(levels))
    requires DistinctSequences(VersionEntries(levels) + Elements(f.entries))
    requires forall l, g :: 0 <= l < NUM_LEVELS && g in levels[l] ==> g.number < f.number
    ensures ValidVersion(levels')
    ensures VersionEntries(levels') == VersionEntries(levels) + Elements(f.entries)
  {
    forall l, m | 0 <= l < m < NUM_LEVELS ensures Newer(EntriesOf(Files(levels'[l])), EntriesOf(Files(levels'[m]))) {
      forall e, d | e in EntriesOf(Files(levels'[l])) && d in EntriesOf(Files(levels'[m])) && e.ukey == d.ukey
        ensures e.sequence > d.sequence
      { FlushedNewer(levels, f, level, levels', l, m, e, d); }
    }
    forall l | 1 <= l < NUM_LEVELS ensures ValidFiles(Files(levels'[l])) && Disjoint(Files(levels'[l])) {
      FlushedDisjoint(levels, f, level, levels', l);
    }
    FlushedEntries(levels, f, level, levels');
    FlushedNumbers(levels, f, level, levels');
    forall a, b | a in Files(levels'[0]) && b in Files(levels'[0]) && a.number > b.number
      ensures Newer(Elements(a.entries), Elements(b.entries))
    { FlushedLevel0(levels, f, level, levels', a, b); }
  }

  lemma FlushedDisjoint(levels: seq<seq<File>>, f: File, level: nat, levels': seq<seq<File>>, l: nat)
    requires ValidVersion(levels) && ValidFile(f) && LevelAllowed(levels, f, level)
    requires Flushed(levels, f, level, levels') && 1 <= l < NUM_LEVELS
    ensures ValidFiles(Files(levels'[l])) && Disjoint(Files(levels'[l]))
  {
    LevelFacts(levels, l);
    if l == level { UserApartNewer(Files(levels[l]), f); }
  }

  lemma FlushedEntries(levels: seq<seq<File>>, f: File, level: nat, levels': seq<seq<File>>)
    requires Flushed(levels, f, level, levels')
    ensures VersionEntries(levels') == VersionEntries(levels) + Elements(f.entries)
  {
    forall l | 0 <= l < NUM_LEVELS
      ensures EntriesOf(Files(levels'[l])) == EntriesOf(Files(levels[l]))
              + (if l == level then Elements(f.entries) else {})
    {
      EntriesUnion(Files(levels[l]), {f});
      assert EntriesOf({f}) == Elements(f.entries);
    }
    forall e ensures e in VersionEntries(levels') <==> e in VersionEntries(levels) + Elements(f.entries) {
      if e in Elements(f.entries) { assert e in EntriesOf(Files(levels'[level])); }
      if e in VersionEntries(levels) {
        var l :| 0 <= l < NUM_LEVELS && e in EntriesOf(Files(levels[l]));
        assert e in EntriesOf(Files(levels'[l]));
      }
    }
  }

  lemma FlushedNumbers(levels: seq<seq<File>>, f: File, level: nat, levels': seq<seq<File>>)
    requires Flushed(levels, f, level, levels') && NumbersUnique(levels)
    requires forall l, g :: 0 <= l < NUM_LEVELS && g in levels[l] ==> g.number < f.number
    ensures NumbersUnique(levels')
  {
    hide SortedFiles;
    assert forall l, g :: 0 <= l < NUM_LEVELS && g in levels'[l] ==> g in Files(levels'[l]);
    assert forall l, g :: 0 <= l < NUM_LEVELS && g in levels'[l] ==> g in levels[l] || (l == level && g == f);
  }
}
