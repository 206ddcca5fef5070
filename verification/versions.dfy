/** Table files, levels and the level-by-level lookup of db/version_set.cc. */
module Versions {
  import opened InternalKeys
  import opened SnapshotReads

  const NUM_LEVELS := 7

  /** A table file and its metadata: the entries are what the table serves, in order. */
  datatype File = File(number: nat, size: nat, entries: seq<Entry>)

  predicate ValidFile(f: File) { |f.entries| > 0 && Sorted(f.entries) }

  function Smallest(f: File): Entry requires ValidFile(f) { f.entries[0] }
  function Largest(f: File): Entry requires ValidFile(f) { f.entries[|f.entries| - 1] }

  ghost predicate ValidFiles(fs: set<File>) { forall f :: f in fs ==> ValidFile(f) }

  ghost function Files(level: seq<File>): set<File> { set f | f in level }

  ghost function EntriesOf(fs: set<File>): set<Entry> { set f, e | f in fs && e in f.entries :: e }

  /** VersionSet::Builder::BySmallestKey. */
  predicate BySmallest(a: File, b: File)
    requires ValidFile(a) && ValidFile(b)
  {
    Before(Smallest(a), Smallest(b)) || (!Before(Smallest(b), Smallest(a)) && a.number < b.number)
  }

  ghost predicate SortedFiles(level: seq<File>) {
    && (forall i :: 0 <= i < |level| ==> ValidFile(level[i]))
    && forall i, j :: 0 <= i < j < |level| ==> BySmallest(level[i], level[j])
  }

  /** Whole internal-key ranges of two files do not meet. */
  predicate Apart(a: File, b: File)
    requires ValidFile(a) && ValidFile(b)
  {
    Before(Largest(a), Smallest(b)) || Before(Largest(b), Smallest(a))
  }

  ghost predicate Disjoint(fs: set<File>)
    requires ValidFiles(fs)
  {
    forall f, g :: f in fs && g in fs && f != g ==> Apart(f, g)
  }

  /** Entries in `a` are newer than entries in `b` for the same user key. */
  ghost predicate Newer(a: set<Entry>, b: set<Entry>) {
    forall e, d :: e in a && d in b && e.ukey == d.ukey ==> e.sequence > d.sequence
  }

  ghost predicate NewerByNumber(fs: set<File>) {
    forall f, g :: f in fs && g in fs && f.number > g.number ==> Newer(Elements(f.entries), Elements(g.entries))
  }

  ghost predicate NumbersUnique(levels: seq<seq<File>>) {
    && (forall l, f, g :: 0 <= l < |levels| && f in levels[l] && g in levels[l] && f.number == g.number ==> f == g)
    && forall l, m, f, g :: 0 <= l < m < |levels| && f in levels[l] && g in levels[m] ==> f.number != g.number
  }

  /** Every level is in order, and above level 0 the files do not meet. */
  ghost predicate SearchableLevels(levels: seq<seq<File>>) {
    && |levels| == NUM_LEVELS
    && (forall l :: 0 <= l < NUM_LEVELS ==> SortedFiles(levels[l]))
    && forall l :: 1 <= l < NUM_LEVELS ==> Disjoint(Files(levels[l]))
  }

  /** What makes the level-by-level search right: levels above 0 are disjoint, a
      larger level-0 number is newer, a smaller level is newer.  Files and entries
      are identified by their number and their sequence. */
  ghost predicate ValidVersion(levels: seq<seq<File>>) {
    && SearchableLevels(levels)
    && NumbersUnique(levels)
    && DistinctSequences(VersionEntries(levels))
    && NewerByNumber(Files(levels[0]))
    && forall l, m :: 0 <= l < m < NUM_LEVELS ==> Newer(EntriesOf(Files(levels[l])), EntriesOf(Files(levels[m])))
  }

  ghost function VersionEntries(levels: seq<seq<File>>): set<Entry> {
    set l, e | 0 <= l < |levels| && e in EntriesOf(Files(levels[l])) :: e
  }

  // ---- point lookups in one sorted run ----

  /** Seek: index of the first entry at or after `key`. */
  function SeekIndex(es: seq<Entry>, key: Entry): (i: nat)
    ensures i <= |es|
    ensures forall j :: 0 <= j < i ==> Before(es[j], key)
    ensures i < |es| ==> !Before(es[i], key)
  {
    if |es| == 0 || !Before(es[0], key) then 0 else 1 + SeekIndex(es[1..], key)
  }

  /** MemTable::Get and Table::InternalGet with SaveValue: the first entry at or
      after the lookup key, if it belongs to the user key. */
  function LookupRun(es: seq<Entry>, k: UserKey, s: nat): (hit: Option<Entry>) {
    var i := SeekIndex(es, SeekKey(k, s));
    if i < |es| && es[i].ukey == k then Some(es[i]) else None
  }

  /** `hit` answers the read of k at s from `es`. */
  ghost predicate Answers(es: set<Entry>, k: UserKey, s: nat, hit: Option<Entry>) {
    if hit.Some? then Newest(es, k, s, hit.value) else forall e :: e in es ==> !Visible(e, k, s)
  }

  lemma LookupAnswers(es: seq<Entry>, k: UserKey, s: nat)
    requires Sorted(es)
    ensures Answers(Elements(es), k, s, LookupRun(es, k, s))
  {
    var key := SeekKey(k, s);
    var i := SeekIndex(es, key);
    forall e | e in es && Visible(e, k, s)
      ensures i < |es| && es[i].ukey == k && e.sequence <= es[i].sequence
    {
      var j :| 0 <= j < |es| && es[j] == e;
      assert !Before(e, key);
      assert i <= j;
    }
  }

  /** Two layers, the first newer: an answer from the first is final. */
  lemma LayeredAnswer(a: set<Entry>, b: set<Entry>, k: UserKey, s: nat, hitA: Option<Entry>, hitB: Option<Entry>)
    requires Newer(a, b) && Answers(a, k, s, hitA)
    requires hitA.None? ==> Answers(b, k, s, hitB)
    ensures Answers(a + b, k, s, if hitA.Some? then hitA else hitB)
  {
  }

  // ---- searching one level ----

  lemma LevelOrder(level: seq<File>, i: nat, j: nat)
    requires SortedFiles(level) && Disjoint(Files(level)) && i < j < |level|
    ensures Before(Largest(level[i]), Smallest(level[j]))
  {
    var f, g := level[i], level[j];
    assert BySmallest(f, g);
    assert f in Files(level) && g in Files(level);
    assert f != g;
    assert AtOrBefore(Smallest(g), Largest(g));
  }

  lemma FileBounds(f: File, e: Entry)
    requires ValidFile(f) && e in f.entries
    ensures AtOrBefore(Smallest(f), e) && AtOrBefore(e, Largest(f))
  {
  }

  /** FindFile: the first file whose largest key is at or after `key`. */
  method FindFile(level: seq<File>, key: Entry) returns (right: nat)
    requires SortedFiles(level) && Disjoint(Files(level))
    ensures right <= |level|
    ensures forall i :: 0 <= i < right ==> Before(Largest(level[i]), key)
    ensures forall i :: right <= i < |level| ==> !Before(Largest(level[i]), key)
  {
    var left := 0;
    right := |level|;
    while left < right
      invariant left <= right <= |level|
      invariant forall i :: 0 <= i < left ==> Before(Largest(level[i]), key)
      invariant forall i :: right <= i < |level| ==> !Before(Largest(level[i]), key)
    {
      var mid := (left + right) / 2;
      forall i, j | 0 <= i < j < |level| ensures Before(Largest(level[i]), Largest(level[j])) {
        LevelOrder(level, i, j);
        FileBounds(level[j], Smallest(level[j]));
      }
      if Before(Largest(level[mid]), key) {
        left := mid + 1;
      } else {
        right := mid;
      }
    }
  }

  predicate Covers(f: File, k: UserKey)
    requires ValidFile(f)
  {
    Smallest(f).ukey <= k <= Largest(f).ukey
  }

  /** A level above 0 is one sorted run: the file FindFile picks holds the answer. */
  method LookupSorted(level: seq<File>, k: UserKey, s: nat) returns (hit: Option<Entry>)
    requires SortedFiles(level) && Disjoint(Files(level))
    ensures Answers(EntriesOf(Files(level)), k, s, hit)
  {
    var key := SeekKey(k, s);
    var index := FindFile(level, key);
    hit := None;
    if index < |level| && Smallest(level[index]).ukey <= k {
      hit := LookupRun(level[index].entries, k, s);
      LookupAnswers(level[index].entries, k, s);
    }
    forall e | e in EntriesOf(Files(level)) && Visible(e, k, s)
      ensures index < |level| && Smallest(level[index]).ukey <= k
      ensures e in level[index].entries || (hit.Some? && e.sequence <= hit.value.sequence)
    {
      var i :| 0 <= i < |level| && e in level[i].entries;
      FileBounds(level[i], e);
      assert !Before(e, key);
      assert index <= i;
      if index < i {
        LevelOrder(level, index, i);
        AfterPicked(level[index], key, e);
      }
    }
  }

  /** The picked file ends at or after the lookup key; if a later file still holds the
      user key, the picked file's last entry is a newer version of it. */
  lemma AfterPicked(f: File, key: Entry, e: Entry)
    requires ValidFile(f) && key.op == Put("") && !Before(Largest(f), key)
    requires Before(Largest(f), e) && e.ukey == key.ukey && e.sequence <= key.sequence
    ensures Smallest(f).ukey <= key.ukey
    ensures LookupRun(f.entries, key.ukey, key.sequence).Some?
    ensures e.sequence <= LookupRun(f.entries, key.ukey, key.sequence).value.sequence
  {
    FileBounds(f, Largest(f));
    var last := Largest(f);
    assert last.ukey == key.ukey && Visible(last, key.ukey, key.sequence);
    assert last in Elements(f.entries);
    LookupAnswers(f.entries, key.ukey, key.sequence);
  }

  // ---- level 0: overlapping files, newest first ----

  ghost predicate NewestFirst(fs: seq<File>) {
    forall i, j :: 0 <= i < j < |fs| ==> fs[i].number > fs[j].number
  }

  method InsertByNumber(r: seq<File>, f: File) returns (r': seq<File>)
    requires NewestFirst(r) && forall g :: g in r ==> g.number != f.number
    ensures NewestFirst(r') && forall g :: g in r' <==> g in r || g == f
  {
    var i := 0;
    while i < |r| && r[i].number > f.number
      invariant i <= |r| && forall j :: 0 <= j < i ==> r[j].number > f.number
    {
      i := i + 1;
    }
    r' := r[..i] + [f] + r[i..];
    InsertedAt(r, f, i);
  }

  lemma InsertedAt(r: seq<File>, f: File, i: nat)
    requires NewestFirst(r) && i <= |r|
    requires forall j :: 0 <= j < i ==> r[j].number > f.number
    requires forall j :: i <= j < |r| ==> r[j].number < f.number
    ensures NewestFirst(r[..i] + [f] + r[i..]) && forall g :: g in r[..i] + [f] + r[i..] <==> g in r || g == f
  {
    var r' := r[..i] + [f] + r[i..];
    forall g ensures g in r' <==> g in r || g == f { InsertedIn(r, f, i, g); }
    forall j, k | 0 <= j < k < |r'| ensures r'[j].number > r'[k].number {
      assert r'[j] == if j < i then r[j] else if j == i then f else r[j - 1];
      assert r'[k] == if k < i then r[k] else if k == i then f else r[k - 1];
    }
  }

  lemma InsertedIn(r: seq<File>, f: File, i: nat, g: File)
    requires i <= |r|
    ensures g in r[..i] + [f] + r[i..] <==> g in r || g == f
  {
    assert r == r[..i] + r[i..];
    assert g in r <==> g in r[..i] || g in r[i..];
  }

  /** std::sort with NewestFirst on files with distinct numbers. */
  method SortNewestFirst(fs: seq<File>) returns (r: seq<File>)
    requires forall i, j :: 0 <= i < j < |fs| ==> fs[i].number != fs[j].number
    ensures NewestFirst(r) && forall f :: f in r <==> f in fs
  {
    r := [];
    for n := 0 to |fs|
      invariant NewestFirst(r) && forall f :: f in r <==> f in fs[..n]
    {
      r := InsertByNumber(r, fs[n]);
      assert fs[..n + 1] == fs[..n] + [fs[n]];
    }
    assert fs[..|fs|] == fs;
  }

  method LookupLevel0(level: seq<File>, k: UserKey, s: nat) returns (hit: Option<Entry>)
    requires SortedFiles(level) && NewerByNumber(Files(level))
    requires forall f, g :: f in level && g in level && f.number == g.number ==> f == g
    ensures Answers(EntriesOf(Files(level)), k, s, hit)
  {
    hide LookupRun;
    var tmp: seq<File> := [];
    for i := 0 to |level|
      invariant forall f :: f in tmp <==> f in level[..i] && ValidFile(f) && Covers(f, k)
      invariant forall a, b :: 0 <= a < b < |tmp| ==> tmp[a].number != tmp[b].number
    {
      assert level[..i + 1] == level[..i] + [level[i]];
      if Covers(level[i], k) {
        assert forall a :: 0 <= a < |tmp| ==> tmp[a].number != level[i].number by {
          forall a | 0 <= a < |tmp| ensures tmp[a].number != level[i].number {
            assert tmp[a] in level[..i];
            var j :| 0 <= j < i && level[j] == tmp[a];
            assert BySmallest(level[j], level[i]);
          }
        }
        tmp := tmp + [level[i]];
      }
    }
    assert level[..|level|] == level;
    tmp := SortNewestFirst(tmp);
    ghost var seen: set<File> := {};
    var n := 0;
    while n < |tmp|
      invariant n <= |tmp| && seen == Files(tmp[..n])
      invariant forall e :: e in EntriesOf(seen) ==> !Visible(e, k, s)
    {
      assert tmp[n] in tmp;
      hit := LookupRun(tmp[n].entries, k, s);
      LookupAnswers(tmp[n].entries, k, s);
      if hit.Some? {
        NewestOfCovering(level, tmp, n, k, s, hit.value);
        return;
      }
      assert tmp[..n + 1] == tmp[..n] + [tmp[n]];
      forall e | e in EntriesOf(Files(tmp[..n + 1])) ensures !Visible(e, k, s) {
        var f :| f in tmp[..n + 1] && e in f.entries;
        if f == tmp[n] { assert e in Elements(f.entries); } else { assert f in seen && e in EntriesOf(seen); }
      }
      seen := Files(tmp[..n + 1]);
      n := n + 1;
    }
    hit := None;
    assert tmp[..n] == tmp;
    forall e | e in EntriesOf(Files(level)) ensures !Visible(e, k, s) {
      var f :| f in level && e in f.entries;
      FileBounds(f, e);
      if e.ukey == k { assert f in seen && e in EntriesOf(seen); }
    }
  }

  lemma NewestOfCovering(level: seq<File>, tmp: seq<File>, n: nat, k: UserKey, s: nat, hit: Entry)
    requires SortedFiles(level) && NewerByNumber(Files(level)) && NewestFirst(tmp) && n < |tmp|
    requires forall f :: f in tmp <==> f in level && ValidFile(f) && Covers(f, k)
    requires forall e :: e in EntriesOf(Files(tmp[..n])) ==> !Visible(e, k, s)
    requires Newest(Elements(tmp[n].entries), k, s, hit)
    ensures Newest(EntriesOf(Files(level)), k, s, hit)
  {
    assert tmp[n] in tmp && tmp[n] in Files(level);
    forall e | e in EntriesOf(Files(level)) && Visible(e, k, s) ensures e.sequence <= hit.sequence {
      var f :| f in level && e in f.entries;
      FileBounds(f, e);
      assert f in tmp;
      var j :| 0 <= j < |tmp| && tmp[j] == f;
      assert e in Elements(f.entries);
      if j > n {
        assert f in Files(level) && tmp[n].number > f.number;
        assert Newer(Elements(tmp[n].entries), Elements(f.entries));
      }
    }
  }

  // ---- Version::Get ----

  /** Version::Get: level by level, stopping at the first level that knows the key. */
  method Get(levels: seq<seq<File>>, k: UserKey, s: nat) returns (hit: Option<Entry>)
    requires ValidVersion(levels)
    ensures Answers(VersionEntries(levels), k, s, hit)
  {
    hit := LookupLevel0(levels[0], k, s);
    var level := 1;
    assert Upto(levels, 1) == EntriesOf(Files(levels[0]));
    while level < NUM_LEVELS && hit.None?
      invariant 1 <= level <= NUM_LEVELS
      invariant Answers(Upto(levels, level), k, s, hit)
    {
      hit := LookupSorted(levels[level], k, s);
      NextLevelAnswer(levels, level, k, s, hit);
      level := level + 1;
    }
    SettledAnswer(levels, level, k, s, hit);
  }

  ghost function Upto(levels: seq<seq<File>>, n: nat): set<Entry>
    requires n <= |levels|
  {
    set l, e | 0 <= l < n && e in EntriesOf(Files(levels[l])) :: e
  }

  lemma NextLevelAnswer(levels: seq<seq<File>>, level: nat, k: UserKey, s: nat, hit: Option<Entry>)
    requires ValidVersion(levels) && 1 <= level < NUM_LEVELS
    requires Answers(Upto(levels, level), k, s, None)
    requires Answers(EntriesOf(Files(levels[level])), k, s, hit)
    ensures Answers(Upto(levels, level + 1), k, s, hit)
  {
    assert Upto(levels, level + 1) == Upto(levels, level) + EntriesOf(Files(levels[level]));
  }

  /** A hit in the levels searched so far is newer than anything below. */
  lemma SettledAnswer(levels: seq<seq<File>>, level: nat, k: UserKey, s: nat, hit: Option<Entry>)
    requires ValidVersion(levels) && 1 <= level <= NUM_LEVELS
    requires Answers(Upto(levels, level), k, s, hit) && (hit.Some? || level == NUM_LEVELS)
    ensures Answers(VersionEntries(levels), k, s, hit)
  {
    forall e | e in VersionEntries(levels) && Visible(e, k, s)
      ensures hit.Some? && e.sequence <= hit.value.sequence
    {
      var m :| 0 <= m < NUM_LEVELS && e in EntriesOf(Files(levels[m]));
      if m < level {
        assert e in Upto(levels, level);
      } else {
        var l :| 0 <= l < level && hit.value in EntriesOf(Files(levels[l]));
        assert Newer(EntriesOf(Files(levels[l])), EntriesOf(Files(levels[m])));
      }
    }
  }
}
