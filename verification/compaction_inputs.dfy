/** Choosing what a compaction reads: GetOverlappingInputs, AddBoundaryInputs,
    SetupOtherInputs, PickCompaction and CompactRange of db/version_set.cc. */
module CompactionInputs {
  import opened InternalKeys
  import opened Lists
  import opened Versions

  /** A user-key range; a missing bound is a null pointer and means unbounded. */
  datatype Range = Range(lo: Option<UserKey>, hi: Option<UserKey>)

  predicate Overlaps(f: File, r: Range)
    requires ValidFile(f)
  {
    (r.lo.Some? ==> r.lo.value <= Largest(f).ukey) && (r.hi.Some? ==> Smallest(f).ukey <= r.hi.value)
  }

  predicate Inside(f: File, r: Range)
    requires ValidFile(f)
  {
    (r.lo.Some? ==> r.lo.value <= Smallest(f).ukey) && (r.hi.Some? ==> Largest(f).ukey <= r.hi.value)
  }

  predicate Within(a: Range, b: Range) {
    && (b.lo.Some? ==> a.lo.Some? && b.lo.value <= a.lo.value)
    && (b.hi.Some? ==> a.hi.Some? && a.hi.value <= b.hi.value)
  }

  ghost predicate AllValid(fs: seq<File>) { forall i :: 0 <= i < |fs| ==> ValidFile(fs[i]) }

  /** Every file that meets the range lies inside it. */
  ghost predicate ClosedRange(fs: seq<File>, r: Range)
    requires AllValid(fs)
  {
    forall f :: f in fs && Overlaps(f, r) ==> Inside(f, r)
  }

  /** Every closed range around `r` contains `c`. */
  ghost predicate Necessary(fs: seq<File>, r: Range, c: Range)
    requires AllValid(fs)
  {
    Within(r, c) && forall c' :: Within(r, c') && ClosedRange(fs, c') ==> Within(c, c')
  }

  /** The least closed range around `r`. */
  ghost predicate LeastClosed(fs: seq<File>, r: Range, c: Range)
    requires AllValid(fs)
  {
    ClosedRange(fs, c) && Necessary(fs, r, c)
  }

  function Overlapping(fs: seq<File>, r: Range): (os: seq<File>)
    requires AllValid(fs)
    ensures forall f :: f in os <==> f in fs && Overlaps(f, r)
    ensures |os| <= |fs| && AllValid(os)
  {
    if fs == [] then [] else
      var rest, last := fs[..|fs| - 1], fs[|fs| - 1];
      if Overlaps(last, r) then Overlapping(rest, r) + [last] else Overlapping(rest, r)
  }

  function Below(f: File, lo: Option<UserKey>): bool
    requires ValidFile(f)
  { lo.Some? && Smallest(f).ukey < lo.value }

  function Above(f: File, hi: Option<UserKey>): bool
    requires ValidFile(f)
  { hi.Some? && Largest(f).ukey > hi.value }

  function LowerTo(r: Range, f: File): Range
    requires ValidFile(f)
  { r.(lo := Some(Smallest(f).ukey)) }

  function RaiseTo(r: Range, f: File): Range
    requires ValidFile(f)
  { r.(hi := Some(Largest(f).ukey)) }

  ghost function BelowSet(fs: seq<File>, r: Range): set<File>
    requires AllValid(fs)
  { set f | f in fs && Below(f, r.lo) }

  ghost function AboveSet(fs: seq<File>, r: Range): set<File>
    requires AllValid(fs)
  { set f | f in fs && Above(f, r.hi) }

  /** Widening to an overlapping file is forced, and leaves fewer files sticking out. */
  lemma WidenLow(fs: seq<File>, r: Range, c: Range, f: File)
    requires AllValid(fs) && f in fs && Overlaps(f, c) && Below(f, c.lo) && Necessary(fs, r, c)
    ensures Necessary(fs, r, LowerTo(c, f))
    ensures BelowSet(fs, LowerTo(c, f)) < BelowSet(fs, c)
  {
    assert f in BelowSet(fs, c) && f !in BelowSet(fs, LowerTo(c, f));
  }

  lemma WidenHigh(fs: seq<File>, r: Range, c: Range, f: File)
    requires AllValid(fs) && f in fs && Overlaps(f, c) && Above(f, c.hi) && Necessary(fs, r, c)
    ensures Necessary(fs, r, RaiseTo(c, f))
    ensures BelowSet(fs, RaiseTo(c, f)) == BelowSet(fs, c) && AboveSet(fs, RaiseTo(c, f)) < AboveSet(fs, c)
  {
    assert f in AboveSet(fs, c) && f !in AboveSet(fs, RaiseTo(c, f));
  }

  ghost predicate AllInside(inputs: seq<File>, r: Range)
    requires AllValid(inputs)
  {
    forall f :: f in inputs ==> Inside(f, r)
  }

  lemma OneMoreInside(inputs: seq<File>, f: File, r: Range)
    requires AllValid(inputs) && ValidFile(f)
    ensures AllValid(inputs + [f]) && (AllInside(inputs, r) && Inside(f, r) ==> AllInside(inputs + [f], r))
  {
  }

  lemma NothingYet(fs: seq<File>, r: Range)
    requires AllValid(fs)
    ensures Overlapping(fs[..0], r) == [] && AllInside([], r)
  {
  }

  lemma OneMoreOverlap(fs: seq<File>, r: Range, i: nat)
    requires AllValid(fs) && i < |fs|
    ensures Overlapping(fs[..i + 1], r) == if Overlaps(fs[i], r) then Overlapping(fs[..i], r) + [fs[i]]
                                           else Overlapping(fs[..i], r)
  {
    assert fs[..i + 1][..i] == fs[..i];
  }

  /** Version::GetOverlappingInputs.  On level 0 the search starts over whenever a
      file widens the range, and stops at the least closed range. */
  method GetOverlappingInputs(level: nat, fs: seq<File>, r: Range) returns (inputs: seq<File>, ghost used: Range)
    requires AllValid(fs)
    ensures inputs == Overlapping(fs, used)
    ensures level > 0 ==> used == r
    ensures level == 0 ==> LeastClosed(fs, r, used)
  {
    hide Necessary;
    hide BelowSet;
    hide AboveSet;
    hide ClosedRange;
    hide Overlapping;
    hide AllInside;
    NecessaryItself(fs, r);
    NothingYet(fs, r);
    var user := r;
    inputs := [];
    var i := 0;
    while i < |fs|
      invariant i <= |fs|
      invariant inputs == Overlapping(fs[..i], user)
      invariant level > 0 ==> user == r
      invariant Necessary(fs, r, user)
      invariant AllValid(inputs) && (level == 0 ==> AllInside(inputs, user))
      decreases BelowSet(fs, user), AboveSet(fs, user), |fs| - i
    {
      var f := fs[i];
      OneMoreOverlap(fs, user, i);
      i := i + 1;
      if user.lo.Some? && Largest(f).ukey < user.lo.value {
      } else if user.hi.Some? && Smallest(f).ukey > user.hi.value {
      } else {
        OneMoreInside(inputs, f, user);
        inputs := inputs + [f];
        if level == 0 {
          if Below(f, user.lo) {
            WidenLow(fs, r, user, f);
            NothingYet(fs, LowerTo(user, f));
            user, inputs, i := LowerTo(user, f), [], 0;
          } else if Above(f, user.hi) {
            WidenHigh(fs, r, user, f);
            NothingYet(fs, RaiseTo(user, f));
            user, inputs, i := RaiseTo(user, f), [], 0;
          }
        }
      }
    }
    used := user;
    assert fs[..i] == fs;
    if level == 0 { ClosedByInputs(fs, used); }
  }

  lemma NecessaryItself(fs: seq<File>, r: Range)
    requires AllValid(fs)
    ensures Necessary(fs, r, r)
  {
  }

  lemma ClosedByInputs(fs: seq<File>, r: Range)
    requires AllValid(fs) && AllInside(Overlapping(fs, r), r)
    ensures ClosedRange(fs, r)
  {
  }

  // ---- hulls ----

  ghost predicate IsFirstKey(fs: set<File>, k: Entry)
    requires ValidFiles(fs)
  {
    (exists f :: f in fs && k == Smallest(f)) && forall f :: f in fs ==> AtOrBefore(k, Smallest(f))
  }

  ghost predicate IsLastKey(fs: set<File>, k: Entry)
    requires ValidFiles(fs)
  {
    (exists f :: f in fs && k == Largest(f)) && forall f :: f in fs ==> AtOrBefore(Largest(f), k)
  }

  /** GetRange, and FindLargestKey for the upper end. */
  method GetRange(inputs: seq<File>) returns (smallest: Entry, largest: Entry)
    requires inputs != [] && AllValid(inputs)
    ensures IsFirstKey(Files(inputs), smallest) && IsLastKey(Files(inputs), largest)
  {
    smallest, largest := Smallest(inputs[0]), Largest(inputs[0]);
    assert inputs[..1] == [inputs[0]];
    for i := 1 to |inputs|
      invariant (exists f :: f in inputs[..i] && smallest == Smallest(f))
                && (exists f :: f in inputs[..i] && largest == Largest(f))
      invariant forall f :: f in inputs[..i] ==> AtOrBefore(smallest, Smallest(f)) && AtOrBefore(Largest(f), largest)
    {
      var f := inputs[i];
      assert inputs[..i + 1] == inputs[..i] + [f];
      assert f in inputs[..i + 1];
      if Before(Smallest(f), smallest) { smallest := Smallest(f); }
      if Before(largest, Largest(f)) { largest := Largest(f); }
    }
    assert inputs[..|inputs|] == inputs;
  }

  function UserRange(smallest: Entry, largest: Entry): Range { Range(Some(smallest.ukey), Some(largest.ukey)) }

  // ---- boundary files ----

  /** f continues, on the same level, the user key on which `largest` ends. */
  predicate IsBoundary(f: File, largest: Entry)
    requires ValidFile(f)
  {
    Before(largest, Smallest(f)) && Smallest(f).ukey == largest.ukey
  }

  ghost predicate NoBoundary(fs: seq<File>, largest: Entry)
    requires AllValid(fs)
  {
    forall f :: f in fs ==> !IsBoundary(f, largest)
  }

  ghost predicate LeastBoundary(fs: seq<File>, largest: Entry, b: File)
    requires AllValid(fs)
  {
    && ValidFile(b) && IsBoundary(b, largest)
    && forall f :: f in fs && IsBoundary(f, largest) ==> AtOrBefore(Smallest(b), Smallest(f))
  }

  /** FindSmallestBoundaryFile. */
  method FindSmallestBoundaryFile(fs: seq<File>, largest: Entry) returns (b: Option<File>)
    requires AllValid(fs)
    ensures b.None? ==> NoBoundary(fs, largest)
    ensures b.Some? ==> b.value in fs && LeastBoundary(fs, largest, b.value)
  {
    b := None;
    for i := 0 to |fs|
      invariant b.None? ==> NoBoundary(fs[..i], largest)
      invariant b.Some? ==> b.value in fs && LeastBoundary(fs[..i], largest, b.value)
    {
      var f := fs[i];
      assert fs[..i + 1] == fs[..i] + [f];
      if IsBoundary(f, largest) {
        if b.None? || Before(Smallest(f), Smallest(b.value)) { b := Some(f); }
      }
    }
    assert fs[..|fs|] == fs;
  }

  // ---- gaps ----

  predicate UserApart(f: File, g: File)
    requires ValidFile(f) && ValidFile(g)
  {
    Largest(f).ukey < Smallest(g).ukey || Largest(g).ukey < Smallest(f).ukey
  }

  ghost predicate Covered(fs: set<File>, k: UserKey)
    requires ValidFiles(fs)
  {
    exists f :: f in fs && Covers(f, k)
  }

  ghost predicate Spanned(fs: set<File>, k: UserKey)
    requires ValidFiles(fs)
  {
    exists f, g :: f in fs && g in fs && Smallest(f).ukey <= k <= Largest(g).ukey
  }

  /** Every user key between two keys of the files lies in one of them. */
  ghost predicate GapFree(fs: set<File>)
    requires ValidFiles(fs)
  {
    forall k :: Spanned(fs, k) ==> Covered(fs, k)
  }

  lemma OneFileGapFree(f: File)
    requires ValidFile(f)
    ensures GapFree({f})
  {
    forall k | Spanned({f}, k) ensures Covered({f}, k) { assert Covers(f, k); }
  }

  /** Adding files that each share a user key with one that is there. */
  lemma TouchingGapFree(fs: set<File>, added: set<File>)
    requires ValidFiles(fs) && ValidFiles(added) && GapFree(fs)
    requires forall b :: b in added ==> exists h :: h in fs && !UserApart(b, h)
    ensures GapFree(fs + added)
  {
    forall k | Spanned(fs + added, k) ensures Covered(fs + added, k) {
      if f, g :| f in fs + added && g in fs + added && Smallest(f).ukey <= k <= Largest(g).ukey
                 && !Covers(f, k) && !Covers(g, k) {
        var f' :| f' in fs && (f' == f || !UserApart(f, f'));
        var g' :| g' in fs && (g' == g || !UserApart(g, g'));
        assert Spanned(fs, k);
        var h :| h in fs && Covers(h, k);
        assert h in fs + added;
      }
    }
  }

  /** A file that meets the hull of files without gaps shares a user key with one of them. */
  lemma MeetsOne(fs: set<File>, smallest: Entry, largest: Entry, b: File) returns (h: File)
    requires ValidFiles(fs) && GapFree(fs) && IsFirstKey(fs, smallest) && IsLastKey(fs, largest)
    requires ValidFile(b) && Overlaps(b, UserRange(smallest, largest))
    ensures h in fs && !UserApart(b, h)
  {
    var f :| f in fs && smallest == Smallest(f);
    if Smallest(b).ukey <= smallest.ukey {
      FileBounds(f, Smallest(f));
      h := f;
    } else {
      assert Spanned(fs, Smallest(b).ukey);
      h :| h in fs && Covers(h, Smallest(b).ukey);
      FileBounds(b, Smallest(b));
    }
  }

  lemma OverlapGapFree(fs: seq<File>, chosen: set<File>, smallest: Entry, largest: Entry)
    requires AllValid(fs) && ValidFiles(chosen) && GapFree(chosen) && IsFirstKey(chosen, smallest)
             && IsLastKey(chosen, largest)
    ensures GapFree(chosen + Files(Overlapping(fs, UserRange(smallest, largest))))
  {
    var met := Overlapping(fs, UserRange(smallest, largest));
    forall b | b in Files(met) ensures exists h :: h in chosen && !UserApart(b, h) {
      var h := MeetsOne(chosen, smallest, largest, b);
    }
    TouchingGapFree(chosen, Files(met));
  }

  /** A least closed range ends before a key that no file covers. */
  lemma CutAbove(fs: seq<File>, r: Range, used: Range, k: UserKey)
    requires AllValid(fs) && LeastClosed(fs, r, used) && (used.hi.Some? ==> k <= used.hi.value)
    requires r.hi.Some? && r.hi.value <= k && !Covered(Files(Overlapping(fs, used)), k)
    ensures used.hi.Some? && used.hi.value <= k
  {
    var cut := used.(hi := Some(k));
    forall f | f in fs && Overlaps(f, cut) ensures Inside(f, cut) {
      assert f in Files(Overlapping(fs, used)) && !Covers(f, k);
    }
    assert Within(r, cut);
  }

  lemma CutBelow(fs: seq<File>, r: Range, used: Range, k: UserKey)
    requires AllValid(fs) && LeastClosed(fs, r, used) && (used.lo.Some? ==> used.lo.value <= k)
    requires r.lo.Some? && k <= r.lo.value && !Covered(Files(Overlapping(fs, used)), k)
    ensures used.lo.Some? && k <= used.lo.value
  {
    var cut := used.(lo := Some(k));
    forall f | f in fs && Overlaps(f, cut) ensures Inside(f, cut) {
      assert f in Files(Overlapping(fs, used)) && !Covers(f, k);
    }
    assert Within(r, cut);
  }

  /** The least closed range around files without gaps has none either. */
  lemma LeastClosedGapFree(fs: seq<File>, chosen: set<File>, smallest: Entry, largest: Entry, used: Range)
    requires AllValid(fs) && ValidFiles(chosen) && GapFree(chosen) && IsFirstKey(chosen, smallest)
             && IsLastKey(chosen, largest)
    requires LeastClosed(fs, UserRange(smallest, largest), used)
    ensures GapFree(chosen + Files(Overlapping(fs, used)))
  {
    var met := Files(Overlapping(fs, used));
    forall k | Spanned(chosen + met, k) ensures Covered(chosen + met, k) {
      var f, g :| f in chosen + met && g in chosen + met && Smallest(f).ukey <= k <= Largest(g).ukey;
      if Covered(met, k) || Covers(f, k) || Covers(g, k) {
        assert forall h :: h in met ==> h in chosen + met;
      } else if smallest.ukey <= k <= largest.ukey {
        assert Spanned(chosen, k) && Covered(chosen, k);
        var h :| h in chosen && Covers(h, k);
        assert h in chosen + met;
      } else if k > largest.ukey {
        CutAbove(fs, UserRange(smallest, largest), used, k);
      } else {
        CutBelow(fs, UserRange(smallest, largest), used, k);
      }
    }
  }

  /** Whatever else is there, going from `chosen` to `all` makes no gap. */
  ghost predicate KeepsGapFree(chosen: set<File>, all: set<File>)
    requires ValidFiles(chosen) && ValidFiles(all)
  {
    forall others :: ValidFiles(others) && GapFree(chosen + others) ==> GapFree(all + others)
  }

  lemma BoundaryGapFree(chosen: set<File>, all: set<File>, largest: Entry, b: File)
    requires ValidFiles(chosen) && ValidFiles(all) && KeepsGapFree(chosen, all) && IsLastKey(all, largest)
    requires ValidFile(b) && IsBoundary(b, largest)
    ensures KeepsGapFree(chosen, all + {b})
  {
    var h :| h in all && largest == Largest(h);
    FileBounds(h, Smallest(h));
    FileBounds(b, Smallest(b));
    forall others | ValidFiles(others) && GapFree(chosen + others) ensures GapFree(all + {b} + others) {
      assert h in all + others && !UserApart(b, h);
      TouchingGapFree(all + others, {b});
      assert all + {b} + others == all + others + {b};
    }
  }

  predicate Between(f: File, g: File, h: File)
    requires ValidFile(f) && ValidFile(g) && ValidFile(h)
  {
    Before(Largest(f), Smallest(g)) && Before(Largest(g), Smallest(h))
  }

  /** A file of the level lying between two chosen files is chosen too. */
  ghost predicate Convex(fs: seq<File>, chosen: set<File>)
    requires AllValid(fs) && ValidFiles(chosen)
  {
    forall f, g, h :: f in chosen && h in chosen && g in fs && Between(f, g, h) ==> g in chosen
  }

  ghost function FilesPast(fs: seq<File>, largest: Entry): set<File>
    requires AllValid(fs)
  { set f | f in fs && Before(largest, Largest(f)) }

  /** `all` extends `chosen` within the level without spoiling anything. */
  ghost predicate Extends(fs: seq<File>, chosen: seq<File>, all: seq<File>)
    requires AllValid(fs) && AllValid(chosen)
  {
    && chosen <= all && AllValid(all) && Files(all) <= Files(fs)
    && (Once(chosen) ==> Once(all)) && KeepsGapFree(Files(chosen), Files(all))
    && (Disjoint(Files(fs)) && Convex(fs, Files(chosen)) ==> Convex(fs, Files(all)))
  }

  lemma ExtendOnce(fs: seq<File>, chosen: seq<File>, all: seq<File>, largest: Entry, b: File)
    requires AllValid(fs) && AllValid(chosen) && Extends(fs, chosen, all)
    requires IsLastKey(Files(all), largest) && b in fs && LeastBoundary(fs, largest, b)
    ensures Extends(fs, chosen, all + [b]) && IsLastKey(Files(all + [b]), Largest(b))
    ensures FilesPast(fs, Largest(b)) < FilesPast(fs, largest)
  {
    hide KeepsGapFree;
    hide Convex;
    hide Disjoint;
    FileBounds(b, Smallest(b));
    assert b in FilesPast(fs, largest) && b !in FilesPast(fs, Largest(b));
    assert Files(all + [b]) == Files(all) + {b};
    if Disjoint(Files(fs)) && Convex(fs, Files(all)) { BoundaryConvex(fs, Files(all), largest, b); }
    BoundaryIsNew(all, largest, b);
    BoundaryGapFree(Files(chosen), Files(all), largest, b);
  }

  /** `all` is `chosen` with, one after the other, the least file that continues the last
      user key of those before it. */
  ghost predicate BoundaryChain(fs: seq<File>, chosen: seq<File>, all: seq<File>)
    requires AllValid(fs) && AllValid(all)
  {
    && chosen <= all
    && forall i :: |chosen| <= i < |all| ==> all[i] in fs && ContinuesAll(fs, all[..i], all[i])
  }

  ghost predicate ContinuesAll(fs: seq<File>, before: seq<File>, b: File)
    requires AllValid(fs) && AllValid(before)
  {
    exists k :: IsLastKey(Files(before), k) && LeastBoundary(fs, k, b)
  }

  /** The chain has come to its end. */
  ghost predicate BoundaryClosed(fs: seq<File>, chosen: seq<File>, all: seq<File>)
    requires AllValid(fs) && AllValid(all)
  {
    BoundaryChain(fs, chosen, all) && exists k :: IsLastKey(Files(all), k) && NoBoundary(fs, k)
  }

  lemma ChainGoesOn(fs: seq<File>, chosen: seq<File>, all: seq<File>, largest: Entry, b: File)
    requires AllValid(fs) && AllValid(all) && BoundaryChain(fs, chosen, all)
    requires b in fs && IsLastKey(Files(all), largest) && LeastBoundary(fs, largest, b)
    ensures AllValid(all + [b]) && BoundaryChain(fs, chosen, all + [b])
  {
    hide IsLastKey;
    hide LeastBoundary;
    var all' := all + [b];
    forall i | |chosen| <= i < |all'| ensures all'[i] in fs && ContinuesAll(fs, all'[..i], all'[i]) {
      assert all'[..i] == all[..i];
      if i == |all| { assert all'[..i] == all; }
    }
  }

  /** AddBoundaryInputs: each step strictly raises the largest key, so it ends; the
      result has no boundary file left and stays convex. */
  method AddBoundaryInputs(fs: seq<File>, chosen: seq<File>) returns (all: seq<File>, ghost last: Entry)
    requires chosen != [] && AllValid(fs) && AllValid(chosen) && Files(chosen) <= Files(fs)
    ensures Extends(fs, chosen, all) && BoundaryClosed(fs, chosen, all)
    ensures IsLastKey(Files(all), last) && NoBoundary(fs, last)
    ensures (exists k :: IsLastKey(Files(chosen), k) && NoBoundary(fs, k)) ==> all == chosen
  {
    var smallest, largest := GetRange(chosen);
    all := chosen;
    var searching := true;
    while searching
      invariant Extends(fs, chosen, all) && IsLastKey(Files(all), largest) && BoundaryChain(fs, chosen, all)
      invariant !searching ==> NoBoundary(fs, largest)
      invariant (exists k :: IsLastKey(Files(chosen), k) && NoBoundary(fs, k)) ==> all == chosen
      decreases FilesPast(fs, largest), searching
    {
      var b := FindSmallestBoundaryFile(fs, largest);
      if b.Some? {
        SameLastKey(fs, Files(all), largest);
        ExtendOnce(fs, chosen, all, largest, b.value);
        ChainGoesOn(fs, chosen, all, largest, b.value);
        all := all + [b.value];
        largest := Largest(b.value);
      } else {
        searching := false;
      }
    }
    last := largest;
  }

  lemma BoundaryIsNew(chosen: seq<File>, largest: Entry, b: File)
    requires AllValid(chosen) && IsLastKey(Files(chosen), largest) && ValidFile(b) && IsBoundary(b, largest)
    ensures Once(chosen) ==> Once(chosen + [b])
  {
    FileBounds(b, Smallest(b));
    forall i | 0 <= i < |chosen| ensures chosen[i] != b { assert chosen[i] in Files(chosen); }
  }

  lemma SameLastKey(fs: seq<File>, chosen: set<File>, largest: Entry)
    requires AllValid(fs) && ValidFiles(chosen) && IsLastKey(chosen, largest)
    ensures forall k :: IsLastKey(chosen, k) && NoBoundary(fs, k) ==> NoBoundary(fs, largest)
  {
    forall k | IsLastKey(chosen, k) ensures k.ukey == largest.ukey && PackedTag(k) == PackedTag(largest) {}
  }

  lemma BoundaryConvex(fs: seq<File>, chosen: set<File>, largest: Entry, b: File)
    requires AllValid(fs) && chosen <= Files(fs) && Disjoint(Files(fs)) && Convex(fs, chosen)
    requires IsLastKey(chosen, largest) && b in fs && LeastBoundary(fs, largest, b)
    ensures Convex(fs, chosen + {b})
  {
    forall f, g, h | f in chosen + {b} && h in chosen + {b} && g in fs
      && Between(f, g, h) && g != b
      ensures g in chosen
    {
      FileBounds(g, Smallest(g));
      FileBounds(b, Smallest(b));
      FileBounds(h, Smallest(h));
      var c :| c in chosen && largest == Largest(c);
      assert g != c ==> Apart(g, c);
      assert h == b ==> Smallest(g).ukey <= largest.ukey;
    }
  }

  // ---- the chosen inputs ----

  /** Inputs from `level` and `level` + 1, with the key range of the former. */
  datatype Compaction = Compaction(level: nat, inputs0: seq<File>, inputs1: seq<File>, smallest: Entry, largest: Entry)

  /** What PickCompaction and CompactRange hand to SetupOtherInputs. */
  ghost predicate StartInputs(level: nat, fs: seq<File>, chosen: seq<File>) {
    && chosen != [] && Once(chosen) && AllValid(fs) && AllValid(chosen) && Files(chosen) <= Files(fs)
    && (if level == 0 then UserClosed(fs, Files(chosen)) else Convex(fs, Files(chosen)))
  }

  /** No file left behind shares any user key range with a chosen one. */
  ghost predicate UserClosed(fs: seq<File>, chosen: set<File>)
    requires AllValid(fs) && ValidFiles(chosen)
  {
    forall f, g :: f in chosen && g in fs && g !in chosen ==> UserApart(f, g)
  }

  /** What is taken from `level`: nothing left there is older. */
  ghost predicate TakenFrom(fs: seq<File>, c: Compaction)
    requires AllValid(fs)
  {
    && c.inputs0 != [] && Once(c.inputs0) && Files(c.inputs0) <= Files(fs)
    && IsFirstKey(Files(c.inputs0), c.smallest) && IsLastKey(Files(c.inputs0), c.largest)
    && Newer(EntriesOf(Files(fs) - Files(c.inputs0)), EntriesOf(Files(c.inputs0)))
  }

  /** The inputs are closed: nothing left in `level` is older than what is taken
      from it, and everything in `level` + 1 that meets the range is taken. */
  ghost predicate ClosedPair(fs: seq<File>, next: seq<File>, c: Compaction)
    requires AllValid(fs) && AllValid(next)
  {
    TakenFrom(fs, c) && c.inputs1 == Overlapping(next, UserRange(c.smallest, c.largest))
  }

  ghost predicate ClosedInputs(levels: seq<seq<File>>, c: Compaction) {
    && c.level + 1 < |levels| && AllValid(levels[c.level]) && AllValid(levels[c.level + 1])
    && ClosedPair(levels[c.level], levels[c.level + 1], c)
  }

  /** g does not meet the range of the inputs, or lies in a gap between them. */
  ghost predicate OutOfTheWay(c: Compaction, g: File)
    requires AllValid(c.inputs0) && AllValid(c.inputs1) && ValidFile(g)
  {
    || !Overlaps(g, UserRange(c.smallest, c.largest))
    || forall h :: h in c.inputs0 || h in c.inputs1 ==> UserApart(g, h)
  }

  /** What remains true of inputs while memtables are flushed: a file of `level` + 1 that
      was not taken may have come into a gap of the range. */
  ghost predicate HeldPair(fs: seq<File>, next: seq<File>, c: Compaction)
    requires AllValid(fs) && AllValid(next)
  {
    && TakenFrom(fs, c) && AllValid(c.inputs0) && AllValid(c.inputs1) && Files(c.inputs1) <= Files(next)
    && (forall f :: f in c.inputs1 ==> Overlaps(f, UserRange(c.smallest, c.largest)))
    && forall g :: g in next && g !in c.inputs1 ==> OutOfTheWay(c, g)
  }

  ghost predicate HeldInputs(levels: seq<seq<File>>, c: Compaction) {
    && c.level + 1 < |levels| && AllValid(levels[c.level]) && AllValid(levels[c.level + 1])
    && HeldPair(levels[c.level], levels[c.level + 1], c)
  }

  lemma ClosedIsHeld(levels: seq<seq<File>>, c: Compaction)
    requires ClosedInputs(levels, c)
    ensures HeldInputs(levels, c)
  {
    var fs, next := levels[c.level], levels[c.level + 1];
    forall f | f in c.inputs0 ensures ValidFile(f) { assert f in Files(c.inputs0) && f in Files(fs); }
    forall f | f in Files(c.inputs1) ensures f in Files(next) { assert f in c.inputs1; }
  }

  lemma SortedOnce(fs: seq<File>)
    requires SortedFiles(fs)
    ensures Once(fs)
  {
    forall i, j | 0 <= i < j < |fs| ensures fs[i] != fs[j] { assert BySmallest(fs[i], fs[j]); }
  }

  lemma {:induction false} OverlappingOnce(fs: seq<File>, r: Range)
    requires AllValid(fs) && Once(fs)
    ensures Once(Overlapping(fs, r))
  {
    if fs != [] {
      var rest, last := fs[..|fs| - 1], fs[|fs| - 1];
      OverlappingOnce(rest, r);
      forall f | f in Overlapping(rest, r) ensures f != last {
        var i :| 0 <= i < |rest| && fs[i] == f;
      }
    }
  }

  lemma OverlappingIsConvex(fs: seq<File>, r: Range)
    requires AllValid(fs)
    ensures Convex(fs, Files(Overlapping(fs, r)))
  {
    forall f, g, h | f in Overlapping(fs, r) && h in Overlapping(fs, r) && g in fs && Between(f, g, h)
      ensures Overlaps(g, r)
    {
      FileBounds(g, Smallest(g));
      FileBounds(f, Smallest(f));
      FileBounds(h, Smallest(h));
    }
  }

  lemma ClosedOverlapIsUserClosed(fs: seq<File>, r: Range)
    requires AllValid(fs) && ClosedRange(fs, r)
    ensures UserClosed(fs, Files(Overlapping(fs, r)))
  {
  }

  /** On level 0 a closed choice has no boundary file to add. */
  lemma UserClosedNoBoundary(fs: seq<File>, chosen: seq<File>, largest: Entry)
    requires StartInputs(0, fs, chosen) && IsLastKey(Files(chosen), largest)
    ensures NoBoundary(fs, largest)
  {
    var c :| c in Files(chosen) && largest == Largest(c);
    forall f | f in fs ensures !IsBoundary(f, largest) {
      FileBounds(f, Smallest(f));
      FileBounds(c, Smallest(c));
      assert f !in chosen ==> UserApart(c, f);
    }
  }

  /** A file left behind that shares a user key with f, does not lie between f and the
      last file c, and does not continue c's last user key, comes before f. */
  lemma LeftIsNewer(f: File, g: File, c: File, e: Entry, d: Entry)
    requires ValidFile(f) && ValidFile(g) && ValidFile(c) && e in g.entries && d in f.entries
    requires Apart(f, g) && Apart(g, c) && AtOrBefore(Largest(f), Largest(c)) && e.ukey == d.ukey
    requires !Between(f, g, c) && !IsBoundary(g, Largest(c))
    ensures Before(e, d)
  {
    FileBounds(g, e);
    FileBounds(f, d);
    FileBounds(c, Smallest(c));
  }

  /** Above level 0, convexity and the absence of a boundary file leave nothing older behind. */
  lemma NothingOlderLeft(fs: seq<File>, chosen: set<File>, largest: Entry)
    requires AllValid(fs) && chosen <= Files(fs) && Disjoint(Files(fs)) && Convex(fs, chosen)
    requires DistinctSequences(EntriesOf(Files(fs)))
    requires IsLastKey(chosen, largest) && NoBoundary(fs, largest)
    ensures Newer(EntriesOf(Files(fs) - chosen), EntriesOf(chosen))
  {
    var c :| c in chosen && largest == Largest(c);
    forall e, d | e in EntriesOf(Files(fs) - chosen) && d in EntriesOf(chosen) && e.ukey == d.ukey
      ensures e.sequence > d.sequence
    {
      var g :| g in Files(fs) - chosen && e in g.entries;
      var f :| f in chosen && d in f.entries;
      LeftIsNewer(f, g, c, e, d);
      assert e in EntriesOf(Files(fs)) && d in EntriesOf(Files(fs));
    }
  }

  lemma NothingSharedLeft(fs: seq<File>, chosen: set<File>)
    requires AllValid(fs) && ValidFiles(chosen) && UserClosed(fs, chosen)
    ensures Newer(EntriesOf(Files(fs) - chosen), EntriesOf(chosen))
  {
    forall e, d | e in EntriesOf(Files(fs) - chosen) && d in EntriesOf(chosen) ensures e.ukey != d.ukey {
      var g :| g in Files(fs) - chosen && e in g.entries;
      var f :| f in chosen && d in f.entries;
      FileBounds(g, e);
      FileBounds(f, d);
      assert UserApart(f, g);
    }
  }

  /** Boundary extension of a legitimate start: closed against older versions. */
  method ExtendAndRange(level: nat, fs: seq<File>, chosen: seq<File>)
    returns (all: seq<File>, smallest: Entry, largest: Entry)
    requires StartInputs(level, fs, chosen) && (level > 0 ==> Disjoint(Files(fs)))
    requires DistinctSequences(EntriesOf(Files(fs)))
    ensures chosen <= all && Once(all) && AllValid(all) && Files(all) <= Files(fs)
            && KeepsGapFree(Files(chosen), Files(all)) && BoundaryClosed(fs, chosen, all)
    ensures IsFirstKey(Files(all), smallest) && IsLastKey(Files(all), largest)
    ensures Newer(EntriesOf(Files(fs) - Files(all)), EntriesOf(Files(all)))
  {
    ghost var last;
    all, last := AddBoundaryInputs(fs, chosen);
    if level == 0 {
      ghost var b := LastKeyOf(chosen);
      UserClosedNoBoundary(fs, chosen, b);
      NothingSharedLeft(fs, Files(all));
    } else {
      NothingOlderLeft(fs, Files(all), last);
    }
    smallest, largest := GetRange(all);
  }

  lemma {:induction false} LastKeyOf(inputs: seq<File>) returns (largest: Entry)
    requires inputs != [] && AllValid(inputs)
    ensures IsLastKey(Files(inputs), largest)
  {
    var front, last := inputs[..|inputs| - 1], inputs[|inputs| - 1];
    assert inputs == front + [last];
    assert Files(inputs) == Files(front) + {last};
    largest := Largest(last);
    if front != [] {
      var before := LastKeyOf(front);
      if Before(largest, before) { largest := before; }
      LaterKey(Files(front), before, last, largest);
    }
  }

  lemma LaterKey(fs: set<File>, before: Entry, last: File, largest: Entry)
    requires ValidFiles(fs) && ValidFile(last) && IsLastKey(fs, before)
    requires largest == if Before(Largest(last), before) then before else Largest(last)
    ensures IsLastKey(fs + {last}, largest)
  {
    if largest == before {
      var f :| f in fs && before == Largest(f);
      assert f in fs + {last};
    } else {
      assert last in fs + {last};
    }
  }

  function TotalFileSize(fs: seq<File>): nat { if fs == [] then 0 else fs[0].size + TotalFileSize(fs[1..]) }

  /** A wider range picks the same files or more of them. */
  lemma {:induction false} SameCountSameFiles(fs: seq<File>, a: Range, b: Range)
    requires AllValid(fs) && Within(a, b)
    ensures |Overlapping(fs, a)| <= |Overlapping(fs, b)|
    ensures |Overlapping(fs, a)| == |Overlapping(fs, b)| ==> Overlapping(fs, a) == Overlapping(fs, b)
  {
    if fs != [] { SameCountSameFiles(fs[..|fs| - 1], a, b); }
  }

  /** The hull of both input lists covers the files of the first, so expansion keeps them. */
  lemma ExpansionKeeps(chosen: seq<File>, fs: seq<File>, used: Range, allStart: Entry, allLimit: Entry)
    requires AllValid(fs) && AllValid(chosen) && Files(chosen) <= Files(fs)
    requires Within(UserRange(allStart, allLimit), used)
    requires forall f :: f in chosen ==> AtOrBefore(allStart, Smallest(f)) && AtOrBefore(Largest(f), allLimit)
    ensures Files(chosen) <= Files(Overlapping(fs, used))
  {
    forall f | f in chosen ensures Overlaps(f, used) { FileBounds(f, Smallest(f)); }
  }

  /** The hull of the inputs has no gap that a new file could fall into. */
  ghost predicate WithoutGaps(c: Compaction) {
    AllValid(c.inputs0) && AllValid(c.inputs1) && GapFree(Files(c.inputs0) + Files(c.inputs1))
  }

  /** From the least to the greatest user key of both input lists. */
  ghost predicate IsHull(c: Compaction, r: Range)
    requires AllValid(c.inputs0) && AllValid(c.inputs1)
  {
    exists lo, hi :: IsFirstKey(Files(c.inputs0 + c.inputs1), lo) && IsLastKey(Files(c.inputs0 + c.inputs1), hi)
                     && r == UserRange(lo, hi)
  }

  /** `used` is the hull, on level 0 the least closed range around it. */
  ghost predicate AroundHull(fs: seq<File>, c: Compaction, used: Range)
    requires AllValid(fs) && AllValid(c.inputs0) && AllValid(c.inputs1)
  {
    exists r :: IsHull(c, r) && if c.level == 0 then LeastClosed(fs, r, used) else used == r
  }

  /** Everything in `level` that meets the hull of both input lists. */
  method HullOverlap(fs: seq<File>, c: Compaction) returns (overlap: seq<File>, ghost used: Range)
    requires AllValid(fs) && Once(fs) && AllValid(c.inputs0) && AllValid(c.inputs1)
    requires c.inputs0 != [] && Files(c.inputs0) <= Files(fs)
    ensures StartInputs(c.level, fs, overlap) && Files(c.inputs0) <= Files(overlap)
    ensures overlap == Overlapping(fs, used) && AroundHull(fs, c, used)
    ensures WithoutGaps(c) ==> GapFree(Files(overlap) + Files(c.inputs1))
  {
    var both := c.inputs0 + c.inputs1;
    var allStart, allLimit := GetRange(both);
    assert IsHull(c, UserRange(allStart, allLimit));
    overlap, used := GetOverlappingInputs(c.level, fs, UserRange(allStart, allLimit));
    assert forall f :: f in c.inputs0 ==> f in Files(both);
    assert Files(both) == Files(c.inputs0) + Files(c.inputs1);
    ExpansionKeeps(c.inputs0, fs, used, allStart, allLimit);
    assert c.inputs0[0] in Files(c.inputs0);
    OverlappingIsConvex(fs, used);
    OverlappingOnce(fs, used);
    if c.level == 0 { ClosedOverlapIsUserClosed(fs, used); }
    if GapFree(Files(both)) {
      if c.level == 0 { LeastClosedGapFree(fs, Files(both), allStart, allLimit, used); }
      else { OverlapGapFree(fs, Files(both), allStart, allLimit); }
      assert Files(both) + Files(overlap) == Files(overlap) + Files(c.inputs1);
    }
  }

  /** More files, but not too many bytes, and they meet no further file of the next level. */
  ghost predicate MayGrowTo(next: seq<File>, c: Compaction, wide: seq<File>, limit: nat)
    requires AllValid(next) && AllValid(wide)
  {
    && |wide| > |c.inputs0| && TotalFileSize(c.inputs1) + TotalFileSize(wide) < limit
    && forall g :: g in next && MeetsRangeOf(g, wide) ==> g in c.inputs1
  }

  /** g has a user key between the least and the greatest of the files. */
  ghost predicate MeetsRangeOf(g: File, fs: seq<File>)
    requires ValidFile(g) && AllValid(fs)
  {
    exists a, b :: a in fs && b in fs && Smallest(a).ukey <= Largest(g).ukey && Smallest(g).ukey <= Largest(b).ukey
  }

  lemma MeetsIsOverlaps(g: File, fs: seq<File>, lo: Entry, hi: Entry)
    requires ValidFile(g) && AllValid(fs) && IsFirstKey(Files(fs), lo) && IsLastKey(Files(fs), hi)
    ensures MeetsRangeOf(g, fs) <==> Overlaps(g, UserRange(lo, hi))
  {
    var a :| a in Files(fs) && lo == Smallest(a);
    var b :| b in Files(fs) && hi == Largest(b);
    if MeetsRangeOf(g, fs) {
      var a', b' :| a' in fs && b' in fs && Smallest(a').ukey <= Largest(g).ukey
                    && Smallest(g).ukey <= Largest(b').ukey;
      assert a' in Files(fs) && b' in Files(fs);
    }
  }

  /** As many files as before are the same files, and no others meet the wider range. */
  lemma SameCountIff(next: seq<File>, c: Compaction, wide: seq<File>, lo: Entry, hi: Entry)
    requires AllValid(next) && AllValid(wide) && IsFirstKey(Files(wide), lo) && IsLastKey(Files(wide), hi)
    requires c.inputs1 == Overlapping(next, UserRange(c.smallest, c.largest))
    requires Within(UserRange(c.smallest, c.largest), UserRange(lo, hi))
    ensures |Overlapping(next, UserRange(lo, hi))| == |c.inputs1|
            <==> forall g :: g in next && MeetsRangeOf(g, wide) ==> g in c.inputs1
    ensures |Overlapping(next, UserRange(lo, hi))| == |c.inputs1| ==>
              Overlapping(next, UserRange(lo, hi)) == c.inputs1
  {
    hide MeetsRangeOf;
    hide IsFirstKey;
    hide IsLastKey;
    forall g | g in next ensures MeetsRangeOf(g, wide) <==> Overlaps(g, UserRange(lo, hi)) {
      MeetsIsOverlaps(g, wide, lo, hi);
    }
    SameCountSameFiles(next, UserRange(c.smallest, c.largest), UserRange(lo, hi));
    if forall g :: g in next && Overlaps(g, UserRange(lo, hi)) ==> g in c.inputs1 {
      SameFilesSameCount(next, UserRange(c.smallest, c.largest), UserRange(lo, hi));
    }
  }

  lemma {:induction false} SameFilesSameCount(fs: seq<File>, a: Range, b: Range)
    requires AllValid(fs) && Within(a, b) && forall g :: g in fs && Overlaps(g, b) ==> Overlaps(g, a)
    ensures Overlapping(fs, a) == Overlapping(fs, b)
  {
    if fs != [] { SameFilesSameCount(fs[..|fs| - 1], a, b); }
  }

  /** `r` is `c`, grown to all that meets its hull if that is allowed. */
  ghost predicate GrownIfAllowed(fs: seq<File>, next: seq<File>, c: Compaction, limit: nat, r: Compaction)
    requires AllValid(fs) && AllValid(next) && AllValid(c.inputs0) && AllValid(c.inputs1)
  {
    exists used, wide :: AroundHull(fs, c, used) && AllValid(wide) && BoundaryClosed(fs, Overlapping(fs, used), wide)
                         && r.inputs0 == if MayGrowTo(next, c, wide, limit) then wide else c.inputs0
  }

  lemma GrownKeepsGapFree(c: Compaction, overlap: set<File>, wide: set<File>)
    requires AllValid(c.inputs0) && AllValid(c.inputs1) && ValidFiles(overlap) && ValidFiles(wide)
    requires KeepsGapFree(overlap, wide) && (WithoutGaps(c) ==> GapFree(overlap + Files(c.inputs1)))
    ensures WithoutGaps(c) ==> GapFree(wide + Files(c.inputs1))
  {
    hide GapFree;
    forall f | f in Files(c.inputs1) ensures ValidFile(f) {}
  }

  /** The expansion tried by SetupOtherInputs, kept only if it stays below the byte
      limit and the next level's choice does not grow. */
  method TryExpand(fs: seq<File>, next: seq<File>, c: Compaction, expandLimit: nat) returns (r: Compaction)
    requires AllValid(fs) && Once(fs) && AllValid(next) && (c.level > 0 ==> Disjoint(Files(fs)))
    requires DistinctSequences(EntriesOf(Files(fs))) && AllValid(c.inputs0) && ClosedPair(fs, next, c)
    ensures r.level == c.level && ClosedPair(fs, next, r)
    ensures Files(c.inputs0) <= Files(r.inputs0) && r.inputs1 == c.inputs1
    ensures GrownIfAllowed(fs, next, c, expandLimit, r)
    ensures WithoutGaps(c) ==> WithoutGaps(r)
  {
    hide AroundHull;
    hide BoundaryClosed;
    hide LeastClosed;
    hide IsFirstKey;
    hide IsLastKey;
    hide GapFree;
    hide KeepsGapFree;
    hide MeetsRangeOf;
    hide Newer;
    hide Disjoint;
    hide DistinctSequences;
    r := c;
    ghost var used;
    var overlap;
    overlap, used := HullOverlap(fs, c);
    var expanded0, newStart, newLimit := ExtendAndRange(c.level, fs, overlap);
    assert Files(overlap) <= Files(expanded0);
    WiderHull(Files(c.inputs0), Files(expanded0), c.smallest, c.largest, newStart, newLimit);
    SameCountIff(next, c, expanded0, newStart, newLimit);
    if |expanded0| > |c.inputs0| && TotalFileSize(c.inputs1) + TotalFileSize(expanded0) < expandLimit {
      var expanded1, _ := GetOverlappingInputs(c.level + 1, next, UserRange(newStart, newLimit));
      if |expanded1| == |c.inputs1| {
        r := Compaction(c.level, expanded0, expanded1, newStart, newLimit);
      }
    }
    GrownKeepsGapFree(c, Files(overlap), Files(expanded0));
    assert r.inputs0 == if MayGrowTo(next, c, expanded0, expandLimit) then expanded0 else c.inputs0;
  }

  /** `first` takes the boundary files and what meets the range; only if that is something
      is growing tried. */
  ghost predicate SetUpFrom(fs: seq<File>, next: seq<File>, chosen: seq<File>, limit: nat, first: Compaction,
                            c: Compaction)
    requires AllValid(fs) && AllValid(next) && AllValid(first.inputs0) && AllValid(first.inputs1)
  {
    && BoundaryClosed(fs, chosen, first.inputs0)
    && (first.inputs1 == [] ==> c == first)
    && (first.inputs1 != [] ==> GrownIfAllowed(fs, next, first, limit, c))
  }

  method SetupPair(fs: seq<File>, next: seq<File>, level: nat, chosen: seq<File>, expandLimit: nat)
    returns (c: Compaction, ghost first: Compaction)
    requires AllValid(fs) && Once(fs) && AllValid(next) && (level > 0 ==> Disjoint(Files(fs)))
    requires DistinctSequences(EntriesOf(Files(fs))) && StartInputs(level, fs, chosen)
    ensures c.level == level && ClosedPair(fs, next, c) && Files(chosen) <= Files(c.inputs0)
    ensures first.level == level && ClosedPair(fs, next, first)
    ensures Files(first.inputs0) <= Files(c.inputs0) && c.inputs1 == first.inputs1
    ensures AllValid(first.inputs0) && SetUpFrom(fs, next, chosen, expandLimit, first, c)
    ensures GapFree(Files(chosen)) ==> WithoutGaps(c)
  {
    hide GrownIfAllowed;
    hide BoundaryClosed;
    var inputs0, smallest, largest := ExtendAndRange(level, fs, chosen);
    var inputs1, _ := GetOverlappingInputs(level + 1, next, UserRange(smallest, largest));
    c := Compaction(level, inputs0, inputs1, smallest, largest);
    first := c;
    assert Files(chosen) <= Files(inputs0);
    if GapFree(Files(chosen)) {
      assert Files(chosen) + {} == Files(chosen) && Files(inputs0) + {} == Files(inputs0);
      OverlapGapFree(next, Files(inputs0), smallest, largest);
    }
    if inputs1 != [] {
      c := TryExpand(fs, next, c, expandLimit);
    }
  }

  lemma LevelFacts(levels: seq<seq<File>>, l: nat)
    requires ValidVersion(levels) && l < NUM_LEVELS
    ensures AllValid(levels[l]) && Once(levels[l]) && SortedFiles(levels[l]) && (l > 0 ==> Disjoint(Files(levels[l])))
    ensures DistinctSequences(EntriesOf(Files(levels[l])))
  {
    assert EntriesOf(Files(levels[l])) <= VersionEntries(levels);
    SortedOnce(levels[l]);
  }

  /** VersionSet::SetupOtherInputs.  `first` is the choice before any expansion:
      expanding never changes what is taken from the next level. */
  method SetupOtherInputs(levels: seq<seq<File>>, level: nat, chosen: seq<File>, expandLimit: nat)
    returns (c: Compaction, ghost first: Compaction)
    requires ValidVersion(levels) && level + 1 < NUM_LEVELS
    requires StartInputs(level, levels[level], chosen)
    ensures c.level == level && ClosedInputs(levels, c) && Files(chosen) <= Files(c.inputs0)
    ensures Files(first.inputs0) <= Files(c.inputs0) && c.inputs1 == first.inputs1
    ensures first.level == level && ClosedInputs(levels, first)
    ensures AllValid(first.inputs0) && SetUpFrom(levels[level], levels[level + 1], chosen, expandLimit, first, c)
    ensures GapFree(Files(chosen)) ==> WithoutGaps(c)
  {
    hide SetUpFrom;
    hide GapFree;
    hide WithoutGaps;
    hide ClosedPair;
    LevelFacts(levels, level);
    LevelFacts(levels, level + 1);
    c, first := SetupPair(levels[level], levels[level + 1], level, chosen, expandLimit);
  }

  lemma WiderHull(a: set<File>, b: set<File>, s: Entry, l: Entry, s': Entry, l': Entry)
    requires ValidFiles(b) && a <= b
    requires IsFirstKey(a, s) && IsLastKey(a, l) && IsFirstKey(b, s') && IsLastKey(b, l')
    ensures Within(UserRange(s, l), UserRange(s', l'))
  {
  }

  /** The first file that ends after the compaction pointer, or the very first one. */
  ghost predicate AfterPointer(fs: seq<File>, pointer: Option<Entry>, picked: File)
    requires AllValid(fs)
  {
    exists i :: 0 <= i < |fs| && fs[i] == picked
      && (pointer.None? ==> i == 0)
      && (pointer.Some? ==>
            if Before(pointer.value, Largest(fs[i])) then forall j :: 0 <= j < i ==>
                  !Before(pointer.value, Largest(fs[j]))
            else i == 0 && forall j :: 0 <= j < |fs| ==> !Before(pointer.value, Largest(fs[j])))
  }

  /** PickCompaction by size: go on where the last compaction of the level ended, with a
      wrap-around to the beginning of the key space. */
  method PickBySize(fs: seq<File>, pointer: Option<Entry>) returns (picked: File)
    requires AllValid(fs) && fs != []
    ensures picked in fs && AfterPointer(fs, pointer, picked)
  {
    for i := 0 to |fs|
      invariant pointer.None? ==> i == 0
      invariant pointer.Some? ==> forall j :: 0 <= j < i ==> !Before(pointer.value, Largest(fs[j]))
    {
      if pointer.None? || Before(pointer.value, Largest(fs[i])) { return fs[i]; }
    }
    picked := fs[0];
  }

  /** PickCompaction once a file has been picked by size or by seeks: itself, or on level 0
      with everything it overlaps, however indirectly. */
  method PickStart(level: nat, fs: seq<File>, picked: File) returns (chosen: seq<File>, ghost used: Range)
    requires AllValid(fs) && Once(fs) && picked in fs
    ensures StartInputs(level, fs, chosen) && picked in chosen
    ensures if level == 0 then chosen == Overlapping(fs, used)
            && LeastClosed(fs, UserRange(Smallest(picked), Largest(picked)), used)
            else chosen == [picked]
    ensures GapFree(Files(chosen))
  {
    chosen := [picked];
    OneFileGapFree(picked);
    used := UserRange(Smallest(picked), Largest(picked));
    if level == 0 {
      var smallest, largest := GetRange(chosen);
      chosen, used := GetOverlappingInputs(0, fs, UserRange(smallest, largest));
      FileBounds(picked, Smallest(picked));
      assert Overlaps(picked, used);
      OverlappingOnce(fs, used);
      ClosedOverlapIsUserClosed(fs, used);
      OneFileRange(picked, smallest, largest);
      LeastClosedGapFree(fs, {picked}, smallest, largest, used);
      assert {picked} + Files(chosen) == Files(chosen);
    } else {
      FileBounds(picked, Smallest(picked));
      assert Files(chosen) == {picked};
    }
  }

  lemma OneFileRange(f: File, smallest: Entry, largest: Entry)
    requires ValidFile(f) && IsFirstKey({f}, smallest) && IsLastKey({f}, largest)
    ensures smallest == Smallest(f) && largest == Largest(f)
  {
  }

  lemma {:induction false} OneFileMore(fs: seq<File>, f: File)
    ensures TotalFileSize(fs + [f]) == TotalFileSize(fs) + f.size
  {
    if fs != [] {
      OneFileMore(fs[1..], f);
      assert (fs + [f])[1..] == fs[1..] + [f];
    }
  }

  /** `n` files are as many as it takes to reach the limit, if they all do. */
  ghost predicate CutAtLimit(whole: seq<File>, limit: nat, n: nat) {
    && n <= |whole| && (n < |whole| ==> n > 0 && TotalFileSize(whole[..n]) >= limit)
    && forall m :: 0 < m < n ==> TotalFileSize(whole[..m]) < limit
  }

  /** CompactRange: the files that meet the range; above level 0 they are cut off once
      `limit` bytes are reached. */
  method CompactRangeStart(level: nat, fs: seq<File>, r: Range, limit: nat)
    returns (chosen: seq<File>, ghost used: Range)
    requires SortedFiles(fs) && (level > 0 ==> Disjoint(Files(fs)))
    ensures chosen != [] ==> StartInputs(level, fs, chosen)
    ensures chosen == [] <==> Overlapping(fs, used) == []
    ensures level == 0 ==> chosen == Overlapping(fs, used) && LeastClosed(fs, r, used)
    ensures level > 0 ==> used == r && chosen <= Overlapping(fs, r) && CutAtLimit(Overlapping(fs, r), limit, |chosen|)
  {
    chosen, used := GetOverlappingInputs(level, fs, r);
    SortedOnce(fs);
    OverlappingOnce(fs, used);
    if chosen == [] { return; }
    if level == 0 {
      ClosedOverlapIsUserClosed(fs, used);
    } else {
      var n := FilesUpTo(chosen, limit);
      chosen := chosen[..n];
      PrefixIsConvex(fs, used, n);
    }
  }

  method FilesUpTo(whole: seq<File>, limit: nat) returns (n: nat)
    requires whole != []
    ensures 0 < n <= |whole| && CutAtLimit(whole, limit, n)
  {
    var total := 0;
    for i := 0 to |whole|
      invariant total == TotalFileSize(whole[..i])
      invariant forall m :: 0 < m <= i ==> TotalFileSize(whole[..m]) < limit
    {
      OneFileMore(whole[..i], whole[i]);
      assert whole[..i + 1] == whole[..i] + [whole[i]];
      total := total + whole[i].size;
      if total >= limit { return i + 1; }
    }
    n := |whole|;
  }

  lemma {:induction false} OverlappingOrdered(fs: seq<File>, r: Range)
    requires SortedFiles(fs)
    ensures SortedFiles(Overlapping(fs, r))
  {
    if fs != [] {
      var rest, last := fs[..|fs| - 1], fs[|fs| - 1];
      OverlappingOrdered(rest, r);
      forall f | f in Overlapping(rest, r) ensures BySmallest(f, last) {
        var i :| 0 <= i < |rest| && fs[i] == f;
      }
    }
  }

  lemma PrefixIsConvex(fs: seq<File>, r: Range, n: nat)
    requires SortedFiles(fs) && Disjoint(Files(fs)) && n <= |Overlapping(fs, r)|
    ensures Convex(fs, Files(Overlapping(fs, r)[..n]))
  {
    hide Overlaps;
    var os := Overlapping(fs, r);
    OverlappingIsConvex(fs, r);
    OverlappingOrdered(fs, r);
    forall f, g, h | f in os[..n] && h in os[..n] && g in fs && Between(f, g, h) ensures g in os[..n] {
      assert g in Files(os);
      var i :| 0 <= i < |os| && os[i] == g;
      var j :| 0 <= j < n && os[j] == h;
      FileBounds(g, Smallest(g));
      assert !BySmallest(h, g);
    }
  }
}
