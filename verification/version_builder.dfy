/** VersionSet::Builder: accumulate edits, then merge with a base version. */
module VersionBuilder {
  import opened InternalKeys
  import opened Versions

  /** The file part of a VersionEdit: (level, number) pairs and (level, file) pairs. */
  datatype VersionEdit = VersionEdit(deleted: set<(nat, nat)>, added: seq<(nat, File)>)

  ghost function DeletedAt(edit: VersionEdit, l: nat): set<nat> { set d | d in edit.deleted && d.0 == l :: d.1 }

  ghost function AddedAt(added: seq<(nat, File)>, l: nat): set<File> { set a | a in added && a.0 == l :: a.1 }

  ghost function Numbers(fs: set<File>): set<nat> { set f | f in fs :: f.number }

  ghost predicate ValidEdit(edit: VersionEdit) {
    && (forall d :: d in edit.deleted ==> d.0 < NUM_LEVELS)
    && forall a :: a in edit.added ==> a.0 < NUM_LEVELS && ValidFile(a.1)
  }

  /** One edit applied to the files of one level. */
  ghost function NextFiles(fs: set<File>, edit: VersionEdit, l: nat): set<File> {
    var added := AddedAt(edit.added, l);
    set f | f in fs + added && f.number !in DeletedAt(edit, l) - Numbers(added)
  }

  /** Builder::LevelState; added_files is an ordered set. */
  datatype LevelState = LevelState(deletedFiles: set<nat>, addedFiles: seq<File>)

  ghost function SavedFiles(base: set<File>, st: LevelState): set<File> {
    set f | f in base + Files(st.addedFiles) && f.number !in st.deletedFiles
  }

  // ---- sorted file lists are determined by their set ----

  lemma {:induction false} SortedUnique(a: seq<File>, b: seq<File>)
    requires SortedFiles(a) && SortedFiles(b) && Files(a) == Files(b)
    ensures a == b
  {
    if a == [] {
      assert forall i :: 0 <= i < |b| ==> b[i] in Files(b);
    } else {
      assert a[0] in Files(a);
      if b != [] {
        assert b[0] in Files(b);
        HeadIsFirst(a, b);
        forall f | f in Files(a[1..]) ensures f in Files(b[1..]) { TailMembers(a, f); TailMembers(b, f); }
        forall f | f in Files(b[1..]) ensures f in Files(a[1..]) { TailMembers(a, f); TailMembers(b, f); }
        SortedUnique(a[1..], b[1..]);
        assert a == [a[0]] + a[1..] && b == [b[0]] + b[1..];
      }
    }
  }

  lemma HeadIsFirst(a: seq<File>, b: seq<File>)
    requires SortedFiles(a) && SortedFiles(b) && Files(a) == Files(b) && a != [] && b != []
    ensures a[0] == b[0]
  {
    assert a[0] in Files(b) && b[0] in Files(a);
    var i :| 0 <= i < |b| && b[i] == a[0];
    var j :| 0 <= j < |a| && a[j] == b[0];
  }

  lemma TailMembers(a: seq<File>, f: File)
    requires SortedFiles(a) && a != []
    ensures f in Files(a[1..]) <==> f in Files(a) && f != a[0]
  {
    if f in Files(a[1..]) {
      var i :| 0 <= i < |a[1..]| && a[1..][i] == f;
      assert BySmallest(a[0], a[i + 1]);
    }
  }

  // ---- the builder ----

  /** std::set insertion: nothing happens if an equivalent file is present. */
  method InsertAdded(fs: seq<File>, f: File) returns (r: seq<File>)
    requires SortedFiles(fs) && ValidFile(f)
    ensures SortedFiles(r)
    ensures (forall g :: g in fs ==> g.number != f.number) ==> Files(r) == Files(fs) + {f}
  {
    var i := 0;
    while i < |fs| && BySmallest(fs[i], f)
      invariant i <= |fs| && forall j :: 0 <= j < i ==> BySmallest(fs[j], f)
    {
      i := i + 1;
    }
    if i < |fs| && !BySmallest(f, fs[i]) {
      assert fs[i] in fs;
      return fs;
    }
    PutBetween(fs, f, i);
    r := fs[..i] + [f] + fs[i..];
  }

  lemma PutBetween(fs: seq<File>, f: File, i: nat)
    requires SortedFiles(fs) && ValidFile(f) && i <= |fs|
    requires (forall j :: 0 <= j < i ==> BySmallest(fs[j], f)) && (i < |fs| ==> BySmallest(f, fs[i]))
    ensures SortedFiles(fs[..i] + [f] + fs[i..]) && Files(fs[..i] + [f] + fs[i..]) == Files(fs) + {f}
  {
    forall j | i <= j < |fs| ensures BySmallest(f, fs[j]) { assert i < j ==> BySmallest(fs[i], fs[j]); }
    hide BySmallest;
    assert fs == fs[..i] + fs[i..];
  }

  /** `out` holds the taken files that are not deleted, in order, ahead of the rest. */
  ghost predicate Merged(out: seq<File>, taken: set<File>, rest: set<File>, deleted: set<nat>)
    requires ValidFiles(rest)
  {
    && SortedFiles(out)
    && (forall f :: f in out <==> f in taken && f.number !in deleted)
    && forall f, g :: f in out && g in rest ==> BySmallest(f, g)
  }

  lemma TakeNext(out: seq<File>, taken: set<File>, rest: set<File>, deleted: set<nat>, f: File, rest': set<File>)
    requires ValidFiles(rest) && Merged(out, taken, rest, deleted) && f in rest && rest' <= rest
    requires forall g :: g in rest' ==> BySmallest(f, g)
    ensures Merged(if f.number !in deleted then out + [f] else out, taken + {f}, rest', deleted)
  {
    if f.number !in deleted {
      forall i, j | 0 <= i < j < |out + [f]| ensures BySmallest((out + [f])[i], (out + [f])[j]) {
        assert out[i] in out;
      }
    }
  }

  ghost function Taken(base: seq<File>, b: nat, added: seq<File>, a: nat): set<File>
    requires b <= |base| && a <= |added|
  { Files(base[..b]) + Files(added[..a]) }

  ghost function Rest(base: seq<File>, b: nat, added: seq<File>, a: nat): set<File>
    requires b <= |base| && a <= |added|
  { Files(base[b..]) + Files(added[a..]) }

  lemma MoveOn(base: seq<File>, b: nat, added: seq<File>, a: nat)
    requires b <= |base| && a <= |added|
    ensures b < |base| ==> Taken(base, b + 1, added, a) == Taken(base, b, added, a) + {base[b]}
    ensures b < |base| ==> base[b] in Rest(base, b, added, a) && Rest(base, b + 1, added, a) <= Rest(base, b, added, a)
    ensures a < |added| ==> Taken(base, b, added, a + 1) == Taken(base, b, added, a) + {added[a]}
    ensures a < |added| ==>
              added[a] in Rest(base, b, added, a)
              && Rest(base, b, added, a + 1) <= Rest(base, b, added, a)
  {
    if b < |base| { assert base[..b + 1] == base[..b] + [base[b]] && base[b..] == [base[b]] + base[b + 1..]; }
    if a < |added| { assert added[..a + 1] == added[..a] + [added[a]] && added[a..] == [added[a]] + added[a + 1..]; }
  }

  /** SaveTo for one level: merge the base files with the added ones, leaving out
      the deleted; base files go first as std::upper_bound finds them. */
  method SaveLevel(base: seq<File>, st: LevelState) returns (out: seq<File>)
    requires SortedFiles(base) && SortedFiles(st.addedFiles)
    requires Numbers(Files(base)) !! Numbers(Files(st.addedFiles))
    ensures SortedFiles(out) && Files(out) == SavedFiles(Files(base), st)
  {
    out := [];
    var b := 0;
    var a := 0;
    var added := st.addedFiles;
    while a < |added| || b < |base|
      invariant a <= |added| && b <= |base|
      invariant Merged(out, Taken(base, b, added, a), Rest(base, b, added, a), st.deletedFiles)
      decreases |added| - a + |base| - b
    {
      MoveOn(base, b, added, a);
      if b < |base| && (a == |added| || !BySmallest(added[a], base[b])) {
        NextInOrder(base, b, added, a, true);
        TakeNext(out, Taken(base, b, added, a), Rest(base, b, added, a), st.deletedFiles, base[b],
                 Rest(base, b + 1, added, a));
        if base[b].number !in st.deletedFiles { out := out + [base[b]]; }
        b := b + 1;
      } else {
        NextInOrder(base, b, added, a, false);
        TakeNext(out, Taken(base, b, added, a), Rest(base, b, added, a), st.deletedFiles, added[a],
                 Rest(base, b, added, a + 1));
        if added[a].number !in st.deletedFiles { out := out + [added[a]]; }
        a := a + 1;
      }
    }
    assert base[..b] == base && added[..a] == added;
  }

  /** The file taken comes before everything that remains. */
  lemma NextInOrder(base: seq<File>, b: nat, added: seq<File>, a: nat, fromBase: bool)
    requires b <= |base| && a <= |added| && SortedFiles(base) && SortedFiles(added)
    requires Numbers(Files(base)) !! Numbers(Files(added))
    requires if fromBase then b < |base| && (a == |added| || !BySmallest(added[a], base[b]))
             else a < |added| && (b == |base| || BySmallest(added[a], base[b]))
    ensures var f := if fromBase then base[b] else added[a];
            && (forall i :: (if fromBase then b + 1 else b) <= i < |base| ==> BySmallest(f, base[i]))
            && (forall i :: (if fromBase then a else a + 1) <= i < |added| ==> BySmallest(f, added[i]))
  {
    var f := if fromBase then base[b] else added[a];
    if fromBase {
      if a < |added| {
        assert base[b] in Files(base) && added[a] in Files(added);
        assert base[b].number in Numbers(Files(base)) && added[a].number in Numbers(Files(added));
      }
      forall i | a <= i < |added| ensures BySmallest(f, added[i]) {
        assert a < i ==> BySmallest(added[a], added[i]);
      }
    } else {
      forall i | b <= i < |base| ensures BySmallest(f, base[i]) {
        assert b < i ==> BySmallest(base[b], base[i]);
      }
    }
  }

  // ---- applying whole edits ----

  class Builder {
    const base: seq<seq<File>>
    var levels: seq<LevelState>

    ghost predicate Valid()
      reads this
    {
      && |base| == |levels| == NUM_LEVELS
      && forall l :: 0 <= l < NUM_LEVELS ==> SortedFiles(base[l]) && SortedFiles(levels[l].addedFiles)
    }

    constructor (base: seq<seq<File>>)
      requires |base| == NUM_LEVELS && forall l :: 0 <= l < NUM_LEVELS ==> SortedFiles(base[l])
      ensures Valid() && this.base == base
      ensures forall l :: 0 <= l < NUM_LEVELS ==> levels[l] == LevelState({}, [])
    {
      this.base := base;
      levels := seq(NUM_LEVELS, _ => LevelState({}, []));
    }

    /** Builder::Apply: deletions first, then each new file, which is taken off the deleted list. */
    method Apply(edit: VersionEdit)
      requires Valid() && ValidEdit(edit)
      requires forall l :: 0 <= l < NUM_LEVELS ==> NewNumbers(Files(levels[l].addedFiles), edit.added, l)
      modifies this
      ensures Valid()
      ensures forall l :: 0 <= l < NUM_LEVELS ==> AfterEdit(old(levels[l]), edit, l, levels[l])
    {
      ghost var start := levels;
      levels := seq(NUM_LEVELS, l requires 0 <= l < |levels| reads this =>
                    levels[l].(deletedFiles := levels[l].deletedFiles + set d | d in edit.deleted && d.0 == l :: d.1));
      for i := 0 to |edit.added|
        invariant Valid()
        invariant forall l :: 0 <= l < NUM_LEVELS ==> PartlyApplied(start[l], edit, i, l, levels[l])
      {
        var l, f := edit.added[i].0, edit.added[i].1;
        assert edit.added[i] in edit.added;
        assert edit.added[..i + 1] == edit.added[..i] + [edit.added[i]];
        var st := levels[l];
        var files := InsertAdded(st.addedFiles, f);
        AddOne(start[l], edit, i, st, files);
        levels := levels[l := LevelState(st.deletedFiles - {f.number}, files)];
        forall m | 0 <= m < NUM_LEVELS && m != l
          ensures AddedAt(edit.added[..i + 1], m) == AddedAt(edit.added[..i], m) {}
      }
      assert edit.added[..|edit.added|] == edit.added;
    }

    /** Builder::SaveTo. */
    method SaveTo() returns (v: seq<seq<File>>)
      requires Valid()
      requires forall l :: 0 <= l < NUM_LEVELS ==> Numbers(Files(base[l])) !! Numbers(Files(levels[l].addedFiles))
      ensures |v| == NUM_LEVELS
      ensures forall l :: 0 <= l < NUM_LEVELS ==>
                SortedFiles(v[l]) && Files(v[l]) == SavedFiles(Files(base[l]), levels[l])
    {
      v := [];
      for l := 0 to NUM_LEVELS
        invariant |v| == l
        invariant forall m :: 0 <= m < l ==>
                    SortedFiles(v[m]) && Files(v[m]) == SavedFiles(Files(base[m]), levels[m])
      {
        var out := SaveLevel(base[l], levels[l]);
        v := v + [out];
      }
    }
  }

  /** The files added to level l have numbers of their own, distinct from those of `fs`. */
  ghost predicate NewNumbers(fs: set<File>, added: seq<(nat, File)>, l: nat) {
    && (forall i, f :: 0 <= i < |added| && added[i].0 == l && f in fs ==> added[i].1.number != f.number)
    && forall i, j :: 0 <= i < j < |added| && added[i].0 == l && added[j].0 == l ==>
         added[i].1.number != added[j].1.number
  }

  ghost predicate PartlyApplied(st: LevelState, edit: VersionEdit, i: nat, l: nat, st': LevelState)
    requires i <= |edit.added|
  {
    var added := AddedAt(edit.added[..i], l);
    && Files(st'.addedFiles) == Files(st.addedFiles) + added
    && st'.deletedFiles == st.deletedFiles + DeletedAt(edit, l) - Numbers(added)
  }

  ghost predicate AfterEdit(st: LevelState, edit: VersionEdit, l: nat, st': LevelState) {
    && Files(st'.addedFiles) == Files(st.addedFiles) + AddedAt(edit.added, l)
    && st'.deletedFiles == st.deletedFiles + DeletedAt(edit, l) - Numbers(AddedAt(edit.added, l))
  }

  lemma AddOne(start: LevelState, edit: VersionEdit, i: nat, st: LevelState, files: seq<File>)
    requires i < |edit.added| && PartlyApplied(start, edit, i, edit.added[i].0, st)
    requires NewNumbers(Files(start.addedFiles), edit.added, edit.added[i].0)
    requires (forall g :: g in st.addedFiles ==> g.number != edit.added[i].1.number)
             ==> Files(files) == Files(st.addedFiles) + {edit.added[i].1}
    ensures PartlyApplied(start, edit, i + 1, edit.added[i].0,
                          LevelState(st.deletedFiles - {edit.added[i].1.number}, files))
  {
    var l, f := edit.added[i].0, edit.added[i].1;
    assert edit.added[..i + 1] == edit.added[..i] + [edit.added[i]];
    assert AddedAt(edit.added[..i + 1], l) == AddedAt(edit.added[..i], l) + {f};
    forall g | g in st.addedFiles ensures g.number != f.number {
      assert g in Files(st.addedFiles);
      if g !in Files(start.addedFiles) {
        assert g in AddedAt(edit.added[..i], l);
        var a :| a in edit.added[..i] && a.0 == l && a.1 == g;
        var j :| 0 <= j < i && edit.added[j] == a;
      }
    }
  }

  // ---- replaying a manifest ----

  ghost function LiveFiles(fs: set<File>, edits: seq<VersionEdit>, l: nat): set<File>
    decreases |edits|
  {
    if edits == [] then fs else NextFiles(LiveFiles(fs, edits[..|edits| - 1], l), edits[|edits| - 1], l)
  }

  /** No number is added twice to level l by the edits, nor is one of `fs` added again. */
  ghost predicate AddedOnce(fs: set<File>, edits: seq<VersionEdit>, l: nat)
    decreases |edits|
  {
    edits == [] ||
    (var init, last := edits[..|edits| - 1], edits[|edits| - 1];
     AddedOnce(fs, init, l) && NewNumbers(EverAdded(fs, init, l), last.added, l))
  }

  ghost function EverAdded(fs: set<File>, edits: seq<VersionEdit>, l: nat): set<File>
    decreases |edits|
  {
    if edits == [] then fs else EverAdded(fs, edits[..|edits| - 1], l) + AddedAt(edits[|edits| - 1].added, l)
  }

  /** The states of one level while one builder is fed all the edits. */
  ghost predicate ReplayedStates(edits: seq<VersionEdit>, l: nat, states: seq<LevelState>) {
    && |states| == |edits| + 1 && states[0] == LevelState({}, [])
    && forall i :: 0 <= i < |edits| ==> AfterEdit(states[i], edits[i], l, states[i + 1])
  }

  lemma OneMoreEdit(fs: set<File>, st: LevelState, edit: VersionEdit, l: nat, st': LevelState)
    requires AfterEdit(st, edit, l, st')
    requires NewNumbers(fs + Files(st.addedFiles), edit.added, l)
    ensures SavedFiles(fs, st') == NextFiles(SavedFiles(fs, st), edit, l)
  {
    var added := AddedAt(edit.added, l);
    forall f, g | f in fs + Files(st.addedFiles) && g in added ensures f.number != g.number {
      var a :| a in edit.added && a.0 == l && a.1 == g;
      var i :| 0 <= i < |edit.added| && edit.added[i] == a;
    }
    assert forall f :: f in fs + Files(st.addedFiles) ==> f.number !in Numbers(added);
    assert forall g :: g in added ==> g.number in Numbers(added);
    forall f ensures f in SavedFiles(fs, st') <==> f in NextFiles(SavedFiles(fs, st), edit, l) {}
  }

  /** Replaying every edit into one builder and saving once gives the files that
      building a version per edit would have given. */
  lemma {:induction false} ReplayEqualsLive(fs: set<File>, edits: seq<VersionEdit>, l: nat, states: seq<LevelState>)
    requires AddedOnce(fs, edits, l) && ReplayedStates(edits, l, states)
    ensures SavedFiles(fs, states[|edits|]) == LiveFiles(fs, edits, l)
    ensures fs + Files(states[|edits|].addedFiles) == EverAdded(fs, edits, l)
    decreases |edits|
  {
    if edits != [] {
      var n := |edits| - 1;
      ReplayEqualsLive(fs, edits[..n], l, states[..n + 1]);
      OneMoreEdit(fs, states[n], edits[n], l, states[n + 1]);
    }
  }

  /** The builder's states so far, one entry per edit. */
  ghost predicate Trail(edits: seq<VersionEdit>, trail: seq<seq<LevelState>>) {
    && |trail| == |edits| + 1 && (forall i :: 0 <= i < |trail| ==> |trail[i]| == NUM_LEVELS)
    && forall l :: 0 <= l < NUM_LEVELS ==> ReplayedStates(edits, l, Column(trail, l))
  }

  lemma TrailStep(edits: seq<VersionEdit>, trail: seq<seq<LevelState>>, edit: VersionEdit, next: seq<LevelState>)
    requires Trail(edits, trail) && |next| == NUM_LEVELS
    requires forall l :: 0 <= l < NUM_LEVELS ==> AfterEdit(trail[|edits|][l], edit, l, next[l])
    ensures Trail(edits + [edit], trail + [next])
  {
    forall l | 0 <= l < NUM_LEVELS ensures ReplayedStates(edits + [edit], l, Column(trail + [next], l)) {
      assert Column(trail + [next], l) == Column(trail, l) + [next[l]];
    }
  }

  lemma NextEditIsNew(fs: set<File>, edits: seq<VersionEdit>, n: nat, l: nat, states: seq<LevelState>)
    requires n < |edits| && AddedOnce(fs, edits, l) && ReplayedStates(edits[..n], l, states)
    ensures NewNumbers(Files(states[n].addedFiles), edits[n].added, l)
  {
    AddedOncePrefix(fs, edits, n + 1, l);
    assert edits[..n + 1][..n] == edits[..n];
    ReplayEqualsLive(fs, edits[..n], l, states);
    assert Files(states[n].addedFiles) <= EverAdded(fs, edits[..n], l);
  }

  /** VersionSet::Recover: one builder for the whole manifest. */
  method Recover(base: seq<seq<File>>, edits: seq<VersionEdit>) returns (v: seq<seq<File>>)
    requires |base| == NUM_LEVELS && forall l :: 0 <= l < NUM_LEVELS ==> SortedFiles(base[l])
    requires forall i :: 0 <= i < |edits| ==> ValidEdit(edits[i])
    requires forall l :: 0 <= l < NUM_LEVELS ==> AddedOnce(Files(base[l]), edits, l)
    ensures |v| == NUM_LEVELS
    ensures forall l :: 0 <= l < NUM_LEVELS ==> SortedFiles(v[l]) && Files(v[l]) == LiveFiles(Files(base[l]), edits, l)
  {
    var builder := new Builder(base);
    ghost var trail := [builder.levels];
    for n := 0 to |edits|
      invariant fresh(builder) && builder.Valid() && builder.base == base
      invariant Trail(edits[..n], trail) && trail[n] == builder.levels
    {
      forall l | 0 <= l < NUM_LEVELS ensures NewNumbers(Files(builder.levels[l].addedFiles), edits[n].added, l) {
        NextEditIsNew(Files(base[l]), edits, n, l, Column(trail, l));
      }
      builder.Apply(edits[n]);
      TrailStep(edits[..n], trail, edits[n], builder.levels);
      assert edits[..n + 1] == edits[..n] + [edits[n]];
      trail := trail + [builder.levels];
    }
    assert edits[..|edits|] == edits;
    forall l | 0 <= l < NUM_LEVELS
      ensures Numbers(Files(base[l])) !! Numbers(Files(builder.levels[l].addedFiles))
      ensures SavedFiles(Files(base[l]), builder.levels[l]) == LiveFiles(Files(base[l]), edits, l)
    {
      ReplayEqualsLive(Files(base[l]), edits, l, Column(trail, l));
      AddedApart(Files(base[l]), edits, l, Column(trail, l));
    }
    v := builder.SaveTo();
  }

  ghost function Column(trail: seq<seq<LevelState>>, l: nat): seq<LevelState>
    requires forall i :: 0 <= i < |trail| ==> l < |trail[i]|
  {
    seq(|trail|, i requires 0 <= i < |trail| => trail[i][l])
  }

  lemma {:induction false} AddedOncePrefix(fs: set<File>, edits: seq<VersionEdit>, n: nat, l: nat)
    requires n <= |edits| && AddedOnce(fs, edits, l)
    ensures AddedOnce(fs, edits[..n], l)
    decreases |edits|
  {
    if n == |edits| {
      assert edits[..n] == edits;
    } else {
      AddedOncePrefix(fs, edits[..|edits| - 1], n, l);
      assert edits[..|edits| - 1][..n] == edits[..n];
    }
  }

  /** Files added by the edits never carry the number of a base file. */
  lemma {:induction false} AddedApart(fs: set<File>, edits: seq<VersionEdit>, l: nat, states: seq<LevelState>)
    requires AddedOnce(fs, edits, l) && ReplayedStates(edits, l, states)
    ensures forall f, g :: f in fs && g in states[|edits|].addedFiles ==> f.number != g.number
    ensures Numbers(fs) !! Numbers(Files(states[|edits|].addedFiles))
    decreases |edits|
  {
    if edits != [] {
      var n := |edits| - 1;
      AddedApart(fs, edits[..n], l, states[..n + 1]);
      ReplayEqualsLive(fs, edits[..n], l, states[..n + 1]);
      forall f, g | f in fs && g in states[n + 1].addedFiles ensures f.number != g.number {
        assert g in Files(states[n + 1].addedFiles);
        if g !in Files(states[n].addedFiles) {
          var a :| a in edits[n].added && a.0 == l && a.1 == g;
          var i :| 0 <= i < |edits[n].added| && edits[n].added[i] == a;
          assert f in EverAdded(fs, edits[..n], l);
        }
      }
    }
  }

  /** VersionSet::LogAndApply: a builder on the current version, fed one edit. */
  method LogAndApply(current: seq<seq<File>>, edit: VersionEdit) returns (v: seq<seq<File>>)
    requires |current| == NUM_LEVELS && forall l :: 0 <= l < NUM_LEVELS ==> SortedFiles(current[l])
    requires ValidEdit(edit) && forall l :: 0 <= l < NUM_LEVELS ==> NewNumbers(Files(current[l]), edit.added, l)
    ensures |v| == NUM_LEVELS
    ensures forall l :: 0 <= l < NUM_LEVELS ==>
              SortedFiles(v[l]) && Files(v[l]) == NextFiles(Files(current[l]), edit, l)
  {
    assert forall l :: 0 <= l < NUM_LEVELS ==> EverAdded(Files(current[l]), [edit][..0], l) == Files(current[l]);
    assert forall l :: 0 <= l < NUM_LEVELS ==> AddedOnce(Files(current[l]), [edit][..0], l);
    v := Recover(current, [edit]);
    assert forall l :: 0 <= l < NUM_LEVELS ==> LiveFiles(Files(current[l]), [edit][..0], l) == Files(current[l]);
  }

  lemma {:induction false} LiveWereAdded(fs: set<File>, edits: seq<VersionEdit>, l: nat)
    ensures LiveFiles(fs, edits, l) <= EverAdded(fs, edits, l)
    decreases |edits|
  {
    if edits != [] { LiveWereAdded(fs, edits[..|edits| - 1], l); }
  }

  lemma LiveEditIsNew(fs: set<File>, edits: seq<VersionEdit>, n: nat, l: nat)
    requires n < |edits| && AddedOnce(fs, edits, l)
    ensures NewNumbers(LiveFiles(fs, edits[..n], l), edits[n].added, l)
    ensures LiveFiles(fs, edits[..n + 1], l) == NextFiles(LiveFiles(fs, edits[..n], l), edits[n], l)
  {
    AddedOncePrefix(fs, edits, n + 1, l);
    assert edits[..n + 1][..n] == edits[..n];
    LiveWereAdded(fs, edits[..n], l);
  }

  /** The live database: one version per edit. */
  method Evolve(base: seq<seq<File>>, edits: seq<VersionEdit>) returns (v: seq<seq<File>>)
    requires |base| == NUM_LEVELS && forall l :: 0 <= l < NUM_LEVELS ==> SortedFiles(base[l])
    requires forall i :: 0 <= i < |edits| ==> ValidEdit(edits[i])
    requires forall l :: 0 <= l < NUM_LEVELS ==> AddedOnce(Files(base[l]), edits, l)
    ensures |v| == NUM_LEVELS
    ensures forall l :: 0 <= l < NUM_LEVELS ==> SortedFiles(v[l]) && Files(v[l]) == LiveFiles(Files(base[l]), edits, l)
  {
    v := base;
    for n := 0 to |edits|
      invariant |v| == NUM_LEVELS
      invariant forall l :: 0 <= l < NUM_LEVELS ==>
                  SortedFiles(v[l]) && Files(v[l]) == LiveFiles(Files(base[l]), edits[..n], l)
    {
      forall l | 0 <= l < NUM_LEVELS
        ensures NewNumbers(LiveFiles(Files(base[l]), edits[..n], l), edits[n].added, l)
        ensures LiveFiles(Files(base[l]), edits[..n + 1], l)
                == NextFiles(LiveFiles(Files(base[l]), edits[..n], l), edits[n], l)
      { LiveEditIsNew(Files(base[l]), edits, n, l); }
      v := LogAndApply(v, edits[n]);
    }
    assert edits[..|edits|] == edits;
  }

  lemma SameVersion(a: seq<seq<File>>, b: seq<seq<File>>)
    requires |a| == |b| && forall l :: 0 <= l < |a| ==>
               SortedFiles(a[l]) && SortedFiles(b[l]) && Files(a[l]) == Files(b[l])
    ensures a == b
  {
    forall l | 0 <= l < |a| ensures a[l] == b[l] { SortedUnique(a[l], b[l]); }
  }

  /** Recovery from the manifest ends in the very version the live database had. */
  method RecoverAfter(base: seq<seq<File>>, edits: seq<VersionEdit>)
    returns (live: seq<seq<File>>, recovered: seq<seq<File>>)
    requires |base| == NUM_LEVELS && forall l :: 0 <= l < NUM_LEVELS ==> SortedFiles(base[l])
    requires forall i :: 0 <= i < |edits| ==> ValidEdit(edits[i])
    requires forall l :: 0 <= l < NUM_LEVELS ==> AddedOnce(Files(base[l]), edits, l)
    ensures recovered == live
    ensures forall l :: 0 <= l < NUM_LEVELS ==>
              l < |live| && SortedFiles(live[l]) && Files(live[l]) == LiveFiles(Files(base[l]), edits, l)
  {
    live := Evolve(base, edits);
    recovered := Recover(base, edits);
    SameVersion(live, recovered);
  }
}
