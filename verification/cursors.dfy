/** What two-level iterators are used for: the iterator over a sorted level
    (Version::NewConcatenatingIterator) and over a table (Table::NewIterator). */
module Cursors {
  import opened InternalKeys
  import opened Lists
  import opened Coding
  import opened Blocks
  import opened KeyOrder
  import opened TwoLevel
  import V = Versions
  import L = TableLayout
  import B = TableBuilding
  import T = Tables

  // ---- a level: LevelFileNumIterator over the largest keys, a table behind each ----

  function LevelIndex(level: seq<V.File>): seq<(Entry, V.File)>
    requires V.SortedFiles(level)
  {
    seq(|level|, i requires 0 <= i < |level| => (V.Largest(level[i]), level[i]))
  }

  function LevelKeys(level: seq<V.File>): (r: seq<seq<Entry>>)
    ensures |r| == |level|
  {
    seq(|level|, i requires 0 <= i < |level| => level[i].entries)
  }

  function Largests(level: seq<V.File>): (r: seq<Entry>)
    requires V.SortedFiles(level)
    ensures |r| == |level|
  {
    seq(|level|, i requires 0 <= i < |level| => V.Largest(level[i]))
  }

  lemma LevelSeparated(level: seq<V.File>, target: Entry)
    requires V.SortedFiles(level) && V.Disjoint(V.Files(level))
    ensures Separated(Largests(level), LevelKeys(level), (a, b) => Before(a, b), target)
  {
    forall b, i | 0 <= b < |level| && 0 <= i < |level[b].entries| && Before(V.Largest(level[b]), target)
      ensures Before(level[b].entries[i], target)
    { V.FileBounds(level[b], level[b].entries[i]); }
    forall b, c, i | 0 <= b < c < |level| && 0 <= i < |level[c].entries| && !Before(V.Largest(level[b]), target)
      ensures !Before(level[c].entries[i], target)
    {
      V.LevelOrder(level, b, c);
      V.FileBounds(level[c], level[c].entries[i]);
    }
  }

  /** One sorted run of all the entries of the level. */
  lemma LevelIsSorted(level: seq<V.File>)
    requires V.SortedFiles(level) && V.Disjoint(V.Files(level))
    ensures Sorted(Concat(LevelKeys(level))) && Elements(Concat(LevelKeys(level))) == V.EntriesOf(V.Files(level))
  {
    var parts, all := LevelKeys(level), Concat(LevelKeys(level));
    forall p, q | 0 <= p < q < |all| ensures Before(all[p], all[q]) {
      var b, i := PartOf(parts, p);
      var c, j := PartOf(parts, q);
      ItemAt(parts, b, i);
      ItemAt(parts, c, j);
      if b < c {
        V.LevelOrder(level, b, c);
        V.FileBounds(level[b], all[p]);
        V.FileBounds(level[c], all[q]);
      } else {
        if c < b {
          StartNext(parts, c);
          StartBefore(parts, c + 1, b);
        }
      }
    }
    forall e ensures e in all <==> e in V.EntriesOf(V.Files(level)) {
      if e in all {
        var p :| 0 <= p < |all| && all[p] == e;
        var b, i := PartOf(parts, p);
        ItemAt(parts, b, i);
        assert level[b] in V.Files(level);
      }
      if f :| f in V.Files(level) && e in f.entries {
        var b :| 0 <= b < |level| && level[b] == f;
        var i :| 0 <= i < |f.entries| && f.entries[i] == e;
        ItemAt(parts, b, i);
      }
    }
  }

  /** NewConcatenatingIterator: a cursor over the sorted run of the level. */
  method NewConcatenatingIterator(level: seq<V.File>) returns (it: TwoLevelIterator<Entry, V.File>)
    requires V.SortedFiles(level) && V.Disjoint(V.Files(level))
    ensures fresh(it) && it.Valid() && Sorted(it.All()) && Elements(it.All()) == V.EntriesOf(V.Files(level))
    ensures forall target :: Separated(it.Separators(), it.Blocks(), it.less, target)
    ensures forall a, b :: it.less(a, b) <==> Before(a, b)
    ensures it.StatusOk() && forall f :: f in level ==> it.blockFunction(f) == Block(f.entries, true)
  {
    it := new TwoLevelIterator(LevelIndex(level), (f: V.File) => Block(f.entries, true), (a, b) => Before(a, b));
    assert it.Blocks() == LevelKeys(level) && it.Separators() == Largests(level);
    LevelIsSorted(level);
    forall target ensures Separated(it.Separators(), it.Blocks(), it.less, target) { LevelSeparated(level, target); }
  }

  /** Seeking in a level ends at the first entry at or after the target. */
  method SeekInLevel(level: seq<V.File>, target: Entry) returns (r: Option<Entry>)
    requires V.SortedFiles(level) && V.Disjoint(V.Files(level))
    ensures if r.None? then forall e :: e in V.EntriesOf(V.Files(level)) ==> Before(e, target)
            else r.value in V.EntriesOf(V.Files(level)) && !Before(r.value, target)
                 && forall e :: e in V.EntriesOf(V.Files(level)) && !Before(e, target) ==> AtOrBefore(r.value, e)
  {
    var it := NewConcatenatingIterator(level);
    ghost var all := it.All();
    it.Seek(target);
    r := None;
    if it.IsValid() {
      var k := it.Key();
      r := Some(k);
    }
    forall e | e in V.EntriesOf(V.Files(level)) && !Before(e, target) ensures r.Some? && AtOrBefore(r.value, e) {
      assert e in Elements(all);
      var p :| 0 <= p < |all| && all[p] == e;
    }
  }

  // ---- a table: its index block over its data blocks ----

  function PairOrder(c: Comparator): (Pair, Pair) -> bool { (p: Pair, q: Pair) => InternalLess(c, p.0, q.0) }

  /** The separators that the builder put into the index do separate the blocks. */
  lemma TableSeparated(o: L.Options, t: B.TableContents, target: Pair)
    requires B.DataOk(o, t) && T.NoEmptyBlock(t.blocks) && Lawful(o.comparator)
    ensures Separated(t.index, t.blocks, PairOrder(o.comparator), target) && Concat(t.blocks) == t.added
  {
    forall b, i | 0 <= b < |t.blocks| && 0 <= i < |t.blocks[b]| && InternalLess(o.comparator, t.index[b].0, target.0)
      ensures InternalLess(o.comparator, t.blocks[b][i].0, target.0)
    { BlockBefore(o, t, target.0, b, i); }
    forall b, c, i | 0 <= b < c < |t.blocks| && 0 <= i < |t.blocks[c]|
        && !InternalLess(o.comparator, t.index[b].0, target.0)
      ensures !InternalLess(o.comparator, t.blocks[c][i].0, target.0)
    { BlockBehind(o, t, target.0, b, c, i); }
  }

  lemma BlockBefore(o: L.Options, t: B.TableContents, k: Bytes, b: nat, i: nat)
    requires B.DataOk(o, t) && T.NoEmptyBlock(t.blocks) && Lawful(o.comparator)
    requires b < |t.blocks| && i < |t.blocks[b]| && InternalLess(o.comparator, t.index[b].0, k)
    ensures InternalLess(o.comparator, t.blocks[b][i].0, k)
  {
    var c, last := o.comparator, |t.blocks[b]| - 1;
    var less := InternalOrder(c);
    T.BlockAscends(o, t, b);
    assert L.Indexed(c, t.blocks, t.handles, [], t.index, b);
    T.LessNotLess(c, t.blocks[b][last].0, t.index[b].0, k);
    if i < last {
      assert less(t.blocks[b][i].0, t.blocks[b][last].0);
      InternalTransitive(c);
      assert less(t.blocks[b][last].0, k);
    }
  }

  lemma BlockBehind(o: L.Options, t: B.TableContents, k: Bytes, b: nat, c: nat, i: nat)
    requires B.DataOk(o, t) && T.NoEmptyBlock(t.blocks) && Lawful(o.comparator)
    requires b < c < |t.blocks| && i < |t.blocks[c]| && !InternalLess(o.comparator, t.index[b].0, k)
    ensures !InternalLess(o.comparator, t.blocks[c][i].0, k)
  {
    hide InternalLess;
    hide Lawful;
    hide Concat;
    hide StartOf;
    hide L.KeyBehind;
    var next, key := t.blocks[b + 1][0].0, t.blocks[c][i].0;
    NextIsBehind(o, t, b);
    ItemsAscend(o, t, b + 1, c, i);
    T.LessNotLess(o.comparator, k, t.index[b].0, next);
    T.LessNotLess(o.comparator, k, next, key);
    T.NeverBoth(o.comparator, k, key);
  }

  lemma NextIsBehind(o: L.Options, t: B.TableContents, b: nat)
    requires B.DataOk(o, t) && T.NoEmptyBlock(t.blocks) && b + 1 < |t.blocks|
    ensures InternalLess(o.comparator, t.index[b].0, t.blocks[b + 1][0].0)
  {
    assert L.Indexed(o.comparator, t.blocks, t.handles, [], t.index, b);
  }

  lemma ItemsAscend(o: L.Options, t: B.TableContents, b: nat, c: nat, i: nat)
    requires B.DataOk(o, t) && T.NoEmptyBlock(t.blocks) && Lawful(o.comparator) && b <= c < |t.blocks|
             && i < |t.blocks[c]|
    ensures !InternalLess(o.comparator, t.blocks[c][i].0, t.blocks[b][0].0)
  {
    hide Lawful;
    hide Concat;
    hide StartOf;
    hide L.IndexOk;
    var less := InternalOrder(o.comparator);
    ItemAt(t.blocks, b, 0);
    ItemAt(t.blocks, c, i);
    StartBefore(t.blocks, b, c);
    var p, q := StartOf(t.blocks, b), StartOf(t.blocks, c) + i;
    assert p < q ==> less(t.added[p].0, t.added[q].0);
    T.NeverBoth(o.comparator, t.added[p].0, t.added[q].0);
  }
}
