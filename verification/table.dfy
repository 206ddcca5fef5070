/** Table (table/table.cc): opening a table file and looking one key up in it. */
module Tables {
  import opened InternalKeys
  import opened Lists
  import opened Coding
  import opened Blocks
  import opened BlockIteration
  import opened KeyOrder
  import opened Filters
  import opened TableFormat
  import opened TableLayout
  import opened TableBuilding
  import Bloom
  import Versions

  // ---- what a lookup means ----

  /** Position of the first pair with a key at or after k. */
  function FirstFrom(c: Comparator, pairs: seq<Pair>, k: Bytes): (i: nat)
    ensures i <= |pairs|
    ensures forall j :: 0 <= j < i ==> InternalLess(c, pairs[j].0, k)
    ensures i < |pairs| ==> !InternalLess(c, pairs[i].0, k)
  {
    if pairs == [] || !InternalLess(c, pairs[0].0, k) then 0 else 1 + FirstFrom(c, pairs[1..], k)
  }

  /** SaveValue: a pair of another user key is no answer. */
  function Answer(k: Bytes, r: Option<Pair>): Option<Pair> {
    if r.Some? && UserPart(r.value.0) == UserPart(k) then r else None
  }

  /** A linear scan of everything. */
  function ScanAnswer(c: Comparator, pairs: seq<Pair>, k: Bytes): Option<Pair> {
    var i := FirstFrom(c, pairs, k);
    Answer(k, if i < |pairs| then Some(pairs[i]) else None)
  }

  lemma FirstFromIs(c: Comparator, pairs: seq<Pair>, k: Bytes, i: nat)
    requires Lawful(c) && Ascending(pairs, InternalOrder(c)) && i <= |pairs|
    requires (i > 0 ==> InternalLess(c, pairs[i - 1].0, k)) && (i < |pairs| ==> !InternalLess(c, pairs[i].0, k))
    ensures FirstFrom(c, pairs, k) == i
  {
    InternalTransitive(c);
    var less := InternalOrder(c);
    forall j | 0 <= j < i ensures InternalLess(c, pairs[j].0, k) {
      if j < i - 1 { assert less(pairs[j].0, pairs[i - 1].0) && less(pairs[i - 1].0, k); }
    }
  }

  // ---- weak order ----

  lemma LessNotLess(c: Comparator, a: Bytes, b: Bytes, d: Bytes)
    requires Lawful(c)
    ensures !InternalLess(c, b, a) && InternalLess(c, b, d) ==> InternalLess(c, a, d)
    ensures InternalLess(c, a, b) && !InternalLess(c, d, b) ==> InternalLess(c, a, d)
  {
  }

  lemma NeverBoth(c: Comparator, a: Bytes, b: Bytes)
    requires Lawful(c)
    ensures !(InternalLess(c, a, b) && InternalLess(c, b, a))
  {
  }

  // ---- the block the index picks ----

  /** The index key of block b is the first one at or after k. */
  ghost predicate Picked(c: Comparator, index: seq<Pair>, k: Bytes, b: nat) {
    && b <= |index| && (forall j :: 0 <= j < b ==> InternalLess(c, index[j].0, k))
    && (b < |index| ==> !InternalLess(c, index[b].0, k))
  }

  ghost predicate FirstInBlock(c: Comparator, block: seq<Pair>, k: Bytes, i: nat) {
    && i <= |block| && (forall j :: 0 <= j < i ==> InternalLess(c, block[j].0, k))
    && (i < |block| ==> !InternalLess(c, block[i].0, k))
  }

  ghost predicate NoEmptyBlock(blocks: seq<seq<Pair>>) { forall b :: 0 <= b < |blocks| ==> blocks[b] != [] }

  /** Everything before the picked block is before k. */
  lemma BeforePicked(o: Options, t: TableContents, k: Bytes, b: nat)
    requires DataOk(o, t) && NoEmptyBlock(t.blocks) && Lawful(o.comparator) && Picked(o.comparator, t.index, k, b)
    ensures var from := StartOf(t.blocks, b);
            from <= |t.added| && (from > 0 ==> InternalLess(o.comparator, t.added[from - 1].0, k))
    ensures b == |t.blocks| ==> StartOf(t.blocks, b) == |t.added|
  {
    hide InternalLess;
    hide Lawful;
    hide StartOf;
    hide Concat;
    hide KeyBehind;
    hide Ascending;
    StartOfEnd(t.blocks);
    StartAtMost(t.blocks, b);
    if b > 0 {
      var last := |t.blocks[b - 1]| - 1;
      StartNext(t.blocks, b - 1);
      ItemAt(t.blocks, b - 1, last);
      assert Indexed(o.comparator, t.blocks, t.handles, [], t.index, b - 1);
      LessNotLess(o.comparator, t.blocks[b - 1][last].0, t.index[b - 1].0, k);
    }
  }

  /** The key at or after k in the picked block is the one in the whole table; if the
      block has none, no key of the table at or after k has the same user key first. */
  lemma PickedDecides(o: Options, t: TableContents, k: Bytes, b: nat, i: nat)
    requires DataOk(o, t) && NoEmptyBlock(t.blocks) && Lawful(o.comparator) && Picked(o.comparator, t.index, k, b)
    requires b < |t.blocks| && FirstInBlock(o.comparator, t.blocks[b], k, i)
    ensures ScanAnswer(o.comparator, t.added, k) == Answer(k, if i < |t.blocks[b]| then Some(t.blocks[b][i]) else None)
  {
    hide IndexOk;
    hide Picked;
    hide Concat;
    hide StartOf;
    hide InternalLess;
    hide Lawful;
    hide Ascending;
    hide FirstFrom;
    var c, block, from := o.comparator, t.blocks[b], StartOf(t.blocks, b);
    BeforePicked(o, t, k, b);
    StartNext(t.blocks, b);
    StartAtMost(t.blocks, b + 1);
    if i > 0 { ItemAt(t.blocks, b, i - 1); }
    if i < |block| { ItemAt(t.blocks, b, i); } else { BehindPicked(o, t, k, b); }
    FirstFromIs(c, t.added, k, from + i);
  }

  lemma BehindPicked(o: Options, t: TableContents, k: Bytes, b: nat)
    requires DataOk(o, t) && NoEmptyBlock(t.blocks) && Lawful(o.comparator) && Picked(o.comparator, t.index, k, b)
    requires b < |t.blocks| && InternalLess(o.comparator, t.blocks[b][|t.blocks[b]| - 1].0, k)
    ensures var p := StartOf(t.blocks, b + 1);
            p < |t.added| ==> !InternalLess(o.comparator, t.added[p].0, k) && UserPart(t.added[p].0) != UserPart(k)
  {
    var c := o.comparator;
    assert Indexed(c, t.blocks, t.handles, [], t.index, b);
    if b + 1 < |t.blocks| {
      ItemAt(t.blocks, b + 1, 0);
      var next := t.blocks[b + 1][0].0;
      LessNotLess(c, k, t.index[b].0, next);
      NeverBoth(c, k, next);
    } else {
      StartOfEnd(t.blocks);
    }
  }

  /** With no block picked every key is before k. */
  lemma NonePicked(o: Options, t: TableContents, k: Bytes)
    requires DataOk(o, t) && NoEmptyBlock(t.blocks) && Lawful(o.comparator)
             && Picked(o.comparator, t.index, k, |t.blocks|)
    ensures ScanAnswer(o.comparator, t.added, k) == None
  {
    BeforePicked(o, t, k, |t.blocks|);
    FirstFromIs(o.comparator, t.added, k, |t.added|);
  }

  /** A filter that says no is right: the picked block has no key of this user key. */
  lemma FilterIsRight(o: Options, t: TableContents, r: Reader, k: Bytes, b: nat, i: nat)
    requires o.policy.Some? && NoFalseNegatives(o.policy.value) && Filtered(t.blocks, t.handles, t.groups, [])
    requires Reads(r, t.groups) && ReaderOk(r) && r.policy == InternalPolicy(o.policy.value)
    requires b < |t.blocks| && i < |t.blocks[b]| && UserPart(t.blocks[b][i].0) == UserPart(k)
    ensures KeyMayMatch(r, t.handles[b].offset, k)
  {
    var g, key := t.handles[b].offset / BASE, t.blocks[b][i].0;
    assert InFilter(t.blocks[b], t.handles[b], t.groups, []) && t.blocks[b][i] in t.blocks[b];
    assert g < |t.groups| && key in t.groups[g];
    ReadsFilter(r, t.groups, t.handles[b].offset, k);
    SameUserMatches(o.policy.value, t.groups[g], k, key);
  }

  // ---- order inside the file ----

  lemma BlockAscends(o: Options, t: TableContents, b: nat)
    requires DataOk(o, t) && b < |t.blocks|
    ensures Ascending(t.blocks[b], InternalOrder(o.comparator))
  {
    var less, from := InternalOrder(o.comparator), StartOf(t.blocks, b);
    forall i, j | 0 <= i < j < |t.blocks[b]| ensures less(t.blocks[b][i].0, t.blocks[b][j].0) {
      ItemAt(t.blocks, b, i);
      ItemAt(t.blocks, b, j);
      assert less(t.added[from + i].0, t.added[from + j].0);
    }
  }

  lemma IndexOrder(o: Options, t: TableContents, i: nat, j: nat)
    requires DataOk(o, t) && NoEmptyBlock(t.blocks) && Lawful(o.comparator) && i < j < |t.index|
    ensures InternalLess(o.comparator, t.index[i].0, t.index[j].0)
  {
    hide DataOk;
    hide Lawful;
    hide InternalLess;
    IndexSeparates(o, t, i);
    IndexSeparates(o, t, j);
    var c, first, end := o.comparator, t.blocks[i + 1][0].0, t.blocks[j][|t.blocks[j]| - 1].0;
    FirstBeforeLast(o, t, i + 1, j);
    NeverBoth(c, first, end);
    LessNotLess(c, t.index[i].0, first, end);
    LessNotLess(c, t.index[i].0, end, t.index[j].0);
  }

  lemma IndexSeparates(o: Options, t: TableContents, b: nat)
    requires DataOk(o, t) && NoEmptyBlock(t.blocks) && b < |t.index|
    ensures |t.index| == |t.blocks| && !InternalLess(o.comparator, t.index[b].0, t.blocks[b][|t.blocks[b]| - 1].0)
    ensures b + 1 < |t.blocks| ==> InternalLess(o.comparator, t.index[b].0, t.blocks[b + 1][0].0)
  {
    hide InternalLess;
    hide Ascending;
    hide Concat;
    assert Indexed(o.comparator, t.blocks, t.handles, [], t.index, b);
  }

  lemma FirstBeforeLast(o: Options, t: TableContents, i: nat, j: nat)
    requires DataOk(o, t) && NoEmptyBlock(t.blocks) && i <= j < |t.blocks|
    ensures var first, end := t.blocks[i][0].0, t.blocks[j][|t.blocks[j]| - 1].0;
            first == end || InternalLess(o.comparator, first, end)
  {
    hide InternalLess;
    hide IndexOk;
    hide Concat;
    hide StartOf;
    var last, less := |t.blocks[j]| - 1, InternalOrder(o.comparator);
    ItemAt(t.blocks, i, 0);
    ItemAt(t.blocks, j, last);
    StartBefore(t.blocks, i, j);
    var p, q := StartOf(t.blocks, i), StartOf(t.blocks, j) + last;
    assert p < q ==> less(t.added[p].0, t.added[q].0);
  }

  lemma IndexAscends(o: Options, t: TableContents)
    requires DataOk(o, t) && NoEmptyBlock(t.blocks) && Lawful(o.comparator)
    ensures Ascending(t.index, InternalOrder(o.comparator))
  {
    var less := InternalOrder(o.comparator);
    forall i, j | 0 <= i < j < |t.index| ensures less(t.index[i].0, t.index[j].0) { IndexOrder(o, t, i, j); }
  }

  // ---- reading ----

  /** Block::NewIterator on a block with these pairs. */
  method NewIterator(less: (Bytes, Bytes) -> bool, contents: Bytes, ghost pairs: seq<Pair>) returns (iter: Iter)
    requires IsBlock(contents, pairs) && Transitive(less) && Ascending(pairs, less)
    ensures fresh(iter) && iter.Valid() && iter.layout.pairs == pairs && iter.less == less
  {
    ghost var layout, data, restarts :| Finished(contents, layout, data, restarts) && layout.pairs == pairs;
    var block := OpenBlock(contents);
    hide Finished;
    hide Transitive;
    hide Ascending;
    iter := new Iter(less, contents, block.value.0, block.value.1, layout, data, restarts);
  }

  /** Seek in a block with these pairs, and what the iterator then shows. */
  method SeekInBlock(less: (Bytes, Bytes) -> bool, contents: Bytes, k: Bytes, ghost pairs: seq<Pair>)
    returns (r: Option<Pair>, ghost i: nat)
    requires IsBlock(contents, pairs) && Transitive(less) && Ascending(pairs, less)
    ensures i <= |pairs| && (forall j :: 0 <= j < i ==> less(pairs[j].0, k)) && (i < |pairs| ==> !less(pairs[i].0, k))
    ensures r == if i < |pairs| then Some(pairs[i]) else None
  {
    var iter := NewIterator(less, contents, pairs);
    hide IsBlock;
    hide Transitive;
    hide Ascending;
    iter.Seek(k);
    iter.InRange();
    i := iter.pos;
    if iter.current < iter.restarts {
      var pair := iter.Current();
      r := Some(pair);
    } else {
      r := None;
    }
  }

  class Table {
    const options: Options
    const file: Bytes
    const indexBlock: Bytes
    const filter: Option<Reader>
    ghost const contents: TableContents

    ghost predicate Valid() {
      && LawfulOptions(options) && IsTable(options, file, contents) && IsBlock(indexBlock, contents.index)
      && (filter.Some? ==> options.policy.Some? && ReaderOk(filter.value) && Reads(filter.value, contents.groups)
                           && filter.value.policy == InternalPolicy(options.policy.value))
    }

    constructor (options: Options, file: Bytes, indexBlock: Bytes, filter: Option<Reader>,
                 ghost contents: TableContents)
      ensures this.options == options && this.file == file && this.indexBlock == indexBlock && this.filter == filter
      ensures this.contents == contents
    {
      this.options, this.file, this.indexBlock, this.filter, this.contents :=
          options, file, indexBlock, filter, contents;
    }

    /** BlockReader: the block an index value points to. */
    method ReadIndexed(value: Bytes, verifyChecksums: bool, ghost b: nat) returns (block: Option<Bytes>)
      requires Valid() && b < |contents.blocks| && value == contents.index[b].1
      ensures block.Some? && IsBlock(block.value, contents.blocks[b])
    {
      assert Indexed(options.comparator, contents.blocks, contents.handles, [], contents.index, b);
      HandleParses(value, 0, contents.handles[b], []);
      assert HasBlock(options, file, contents.handles[b], contents.blocks[b]);
      var handle := DecodeHandle(value, 0);
      if handle == None { return None; }
      hide IsBlock;
      block := ReadBlock(options.crc, options.codec, file, verifyChecksums, handle.value.0);
    }

    /** InternalGet: the pair handed to SaveValue, if any, and whether all reads went well. */
    method InternalGet(k: Bytes, verifyChecksums: bool) returns (ok: bool, r: Option<Pair>)
      requires Valid()
      ensures ok && Answer(k, r) == ScanAnswer(options.comparator, contents.added, k)
    {
      hide IsBlock;
      hide HasBlock;
      hide Stored;
      hide FilterBlock;
      var less := InternalOrder(options.comparator);
      InternalTransitive(options.comparator);
      IndexAscends(options, contents);
      var entry;
      ghost var b;
      entry, b := SeekInBlock(less, indexBlock, k, contents.index);
      assert Picked(options.comparator, contents.index, k, b);
      ok, r := true, None;
      if entry == None {
        NonePicked(options, contents, k);
        return;
      }
      var may := MayBeIn(entry.value.1, k, b);
      if may {
        var block := ReadIndexed(entry.value.1, verifyChecksums, b);
        BlockAscends(options, contents, b);
        ghost var i;
        r, i := SeekInBlock(less, block.value, k, contents.blocks[b]);
        PickedDecides(options, contents, k, b, i);
      } else {
        NothingThere(k, b);
      }
    }

    /** The filter, if there is one, for the block an index value points to. */
    method MayBeIn(value: Bytes, k: Bytes, ghost b: nat) returns (may: bool)
      requires Valid() && b < |contents.blocks| && value == contents.index[b].1
      ensures may || filter.Some?
      ensures filter.Some? ==> may == KeyMayMatch(filter.value, contents.handles[b].offset, k)
    {
      assert Indexed(options.comparator, contents.blocks, contents.handles, [], contents.index, b);
      HandleParses(value, 0, contents.handles[b], []);
      may := true;
      if filter.Some? {
        var handle := DecodeHandle(value, 0);
        if handle.Some? { may := KeyMayMatch(filter.value, handle.value.0.offset, k); }
      }
    }

    lemma NothingThere(k: Bytes, b: nat)
      requires Valid() && b < |contents.blocks| && Picked(options.comparator, contents.index, k, b)
      requires filter.Some? && !KeyMayMatch(filter.value, contents.handles[b].offset, k)
      ensures ScanAnswer(options.comparator, contents.added, k) == None
    {
      var block := contents.blocks[b];
      var i := FirstFrom(options.comparator, block, k);
      PickedDecides(options, contents, k, b, i);
      if i < |block| && UserPart(block[i].0) == UserPart(k) {
        FilterIsRight(options, contents, filter.value, k, b, i);
        assert false;
      }
    }
  }

  // ---- opening ----

  lemma MetaAscends(o: Options, h: Handle)
    ensures Transitive(Bytewise().less) && Ascending(MetaPairs(o, h), Bytewise().less)
  {
    BytewiseIsLawful();
  }

  /** ReadMeta and ReadFilter: the filter, unless something about it cannot be read. */
  method ReadMeta(o: Options, file: Bytes, metaindexHandle: Handle, paranoidChecks: bool, ghost t: TableContents)
    returns (filter: Option<Reader>)
    requires LawfulOptions(o) && IsTable(o, file, t) && metaindexHandle == t.metaindexHandle
    ensures filter.Some? <==> o.policy.Some?
    ensures filter.Some? ==>
              ReaderOk(filter.value) && Reads(filter.value, t.groups)
              && filter.value.policy == InternalPolicy(o.policy.value)
  {
    hide IsBlock;
    hide DataOk;
    hide HasBlocks;
    hide HasFilter;
    hide Filtered;
    hide ReaderOk;
    hide Reads;
    hide Ascending;
    hide MetaPairs;
    hide HandleBytes;
    if o.policy == None { return None; }
    var meta := ReadBlock(o.crc, o.codec, file, paranoidChecks, metaindexHandle);
    ghost var pairs := MetaPairs(o, t.filterHandle);
    MetaAscends(o, t.filterHandle);
    var key := FILTER_PREFIX + o.policyName;
    var entry;
    ghost var i;
    entry, i := SeekInBlock(Bytewise().less, meta.value, key, pairs);
    FoundMeta(o, t.filterHandle, key, i);
    if entry == None || entry.value.0 != key { return None; }
    HandleParses(entry.value.1, 0, t.filterHandle, []);
    filter := ReadFilter(o, file, entry.value.1, paranoidChecks, t);
  }

  lemma FoundMeta(o: Options, h: Handle, key: Bytes, i: nat)
    requires o.policy.Some? && key == FILTER_PREFIX + o.policyName && i <= |MetaPairs(o, h)|
    requires forall j :: 0 <= j < i ==> Bytewise().less(MetaPairs(o, h)[j].0, key)
    ensures |MetaPairs(o, h)| == 1 && i == 0 && MetaPairs(o, h)[0] == (key, HandleBytes(h))
  {
    BytesLessTotal(key, key);
    assert MetaPairs(o, h)[0].0 == key && !Bytewise().less(key, key);
  }

  method ReadFilter(o: Options, file: Bytes, value: Bytes, paranoidChecks: bool, ghost t: TableContents)
    returns (filter: Option<Reader>)
    requires o.policy.Some? && HasFilter(o, file, t.filterHandle, t.groups)
    requires ParseHandle(value, 0) == Some((t.filterHandle, |HandleBytes(t.filterHandle)|))
    ensures filter.Some? && ReaderOk(filter.value) && Reads(filter.value, t.groups)
            && filter.value.policy == InternalPolicy(o.policy.value)
  {
    hide FilterBlock;
    var handle := DecodeHandle(value, 0);
    if handle == None { return None; }
    var contents := ReadBlock(o.crc, o.codec, file, paranoidChecks, handle.value.0);
    var r := OpenFilter(InternalPolicy(o.policy.value), contents.value);
    filter := Some(r);
  }

  ghost predicate Unreadable(o: Options, file: Bytes, verifyChecksums: bool, h: Handle) {
    forall contents :: !Readable(o.crc, o.codec, file, verifyChecksums, h, contents)
  }

  /** The first part of Table::Open, on any file: it fails exactly if the file is too short,
      the footer is bad, or the index block cannot be read. */
  method OpenIndex(o: Options, file: Bytes, paranoidChecks: bool) returns (r: Option<(Bytes, Handle)>)
    ensures r.None? <==> |file| < FOOTER || ParseFooter(file[|file| - FOOTER..]) == None
                         || Unreadable(o, file, paranoidChecks, ParseFooter(file[|file| - FOOTER..]).value.1)
    ensures r.Some? ==> |file| >= FOOTER && ParseFooter(file[|file| - FOOTER..]).Some?
                        && var handles := ParseFooter(file[|file| - FOOTER..]).value;
                           r.value.1 == handles.0 && Readable(o.crc, o.codec, file, paranoidChecks, handles.1,
                                 r.value.0)
    ensures forall t :: IsTable(o, file, t) ==>
              r.Some? && r.value.1 == t.metaindexHandle && IsBlock(r.value.0, t.index)
  {
    hide DataOk;
    hide HasBlocks;
    hide IsBlock;
    hide HasFilter;
    hide IsFooter;
    hide ParseFooter;
    hide Readable;
    r := None;
    if |file| >= FOOTER {
      var footer := DecodeFooter(file[|file| - FOOTER..]);
      if footer.Some? {
        var indexBlock := ReadBlock(o.crc, o.codec, file, paranoidChecks, footer.value.1);
        if indexBlock.Some? { r := Some((indexBlock.value, footer.value.0)); }
      }
    }
    hide Stored;
  }

  /** Table::Open. */
  method Open(o: Options, file: Bytes, paranoidChecks: bool, ghost t: TableContents) returns (r: Option<Table>)
    requires LawfulOptions(o) && IsTable(o, file, t)
    ensures r.Some? && r.value.Valid() && r.value.contents == t && r.value.options == o
    ensures r.value.filter.Some? <==> o.policy.Some?
  {
    hide DataOk;
    hide HasBlocks;
    hide IsBlock;
    hide HasFilter;
    hide IsFooter;
    hide ParseFooter;
    hide Readable;
    var index := OpenIndex(o, file, paranoidChecks);
    if index == None { return None; }
    var filter := ReadMeta(o, file, index.value.1, paranoidChecks, t);
    var table := new Table(o, file, index.value.0, filter, t);
    r := Some(table);
  }

  // ---- from pairs to a lookup ----

  ghost predicate KeysAscend(c: Comparator, pairs: seq<Pair>) {
    Ascending(pairs, InternalOrder(c))
  }

  lemma PrefixFits(pairs: seq<Pair>, i: nat, perKey: nat)
    requires i < |pairs| && Fits(pairs, perKey)
    ensures Fits(pairs[..i] + [pairs[i]], perKey)
  {
    var rest := pairs[i + 1..];
    assert pairs == (pairs[..i] + [pairs[i]]) + rest;
    TotalSizeOfBoth(pairs[..i] + [pairs[i]], rest);
    assert perKey * (i + 1) + perKey * |rest| == perKey * |pairs| && |pairs[..i] + [pairs[i]]| == i + 1;
  }

  /** Build a table of these pairs. */
  method BuildTable(o: Options, pairs: seq<Pair>, ghost perKey: nat) returns (file: Bytes, ghost t: TableContents)
    requires LawfulOptions(o) && KeysAscend(o.comparator, pairs) && Fits(pairs, perKey)
    requires o.policy.Some? ==> FilterBounded(InternalPolicy(o.policy.value), perKey)
    ensures IsTable(o, file, t) && t.added == pairs
  {
    hide TableBuilder.Valid;
    hide TableBuilder.CutBySize;
    hide TableSize;
    hide LawfulOptions;
    hide Fits;
    hide KeysAscend;
    hide FilterBounded;
    hide IsTable;
    var builder := new TableBuilder(o, perKey);
    for i := 0 to |pairs|
      invariant builder.Valid() && builder.options == o && builder.perKey == perKey && builder.added == pairs[..i]
      invariant fresh(builder) && fresh(builder.dataBlock) && fresh(builder.indexBlock)
      invariant builder.filterBlock != null ==> fresh(builder.filterBlock)
    {
      PrefixFits(pairs, i, perKey);
      builder.LastOfAdded();
      NextKey(o, builder.lastKey, pairs, i);
      builder.Add(pairs[i].0, pairs[i].1);
      assert pairs[..i + 1] == pairs[..i] + [pairs[i]];
    }
    assert pairs[..|pairs|] == pairs;
    t := builder.Finish();
    file := builder.file;
  }

  lemma NextKey(o: Options, lastKey: Bytes, pairs: seq<Pair>, i: nat)
    requires i < |pairs| && lastKey == LastKey(pairs[..i]) && KeysAscend(o.comparator, pairs)
    ensures i > 0 ==> InternalLess(o.comparator, lastKey, pairs[i].0)
  {
    var less := InternalOrder(o.comparator);
    if i > 0 { assert less(pairs[i - 1].0, pairs[i].0); }
  }

  /** Building a table of these pairs, opening it and looking a key up gives the same
      answer as scanning the pairs. */
  method BuildAndGet(o: Options, pairs: seq<Pair>, k: Bytes, paranoidChecks: bool, ghost perKey: nat)
    returns (ok: bool, r: Option<Pair>)
    requires LawfulOptions(o) && KeysAscend(o.comparator, pairs) && Fits(pairs, perKey)
    requires o.policy.Some? ==> FilterBounded(InternalPolicy(o.policy.value), perKey)
    ensures ok && Answer(k, r) == ScanAnswer(o.comparator, pairs, k)
  {
    hide LawfulOptions;
    hide IsTable;
    var file, t := BuildTable(o, pairs, perKey);
    var table := Open(o, file, paranoidChecks, t);
    ok, r := table.value.InternalGet(k, paranoidChecks);
  }

  // ---- the store's view of a table ----

  /** User keys as reals, in the comparator's order. */
  ghost predicate Ranks(c: Comparator, rank: Bytes -> UserKey) {
    forall a, b :: c.less(a, b) <==> rank(a) < rank(b)
  }

  /** A byte string as a number: its bytes, raised by one, are the digits of a fraction to
      base 257. */
  function Rank(bs: Bytes): (r: UserKey)
    ensures 0.0 <= r < 1.0
  { if bs == [] then 0.0 else ((bs[0] as int + 1) as real + Rank(bs[1..])) / 257.0 }

  lemma {:induction false} RankAscends(a: Bytes, b: Bytes)
    requires BytesLess(a, b)
    ensures Rank(a) < Rank(b)
  {
    if a != [] && a[0] == b[0] {
      var n := SharedPrefix(a, b);
      assert a[1..][..n - 1] == a[..n][1..] && b[1..][..n - 1] == b[..n][1..];
      assert LessFrom(a[1..], b[1..], n - 1);
      LessIffFrom(a[1..], b[1..], n - 1);
      RankAscends(a[1..], b[1..]);
    } else if a != [] {
      assert (a[0] as int + 1) as real + 1.0 <= (b[0] as int + 1) as real;
    }
  }

  /** So bytewise user keys do have an order among the reals. */
  lemma BytewiseRanks()
    ensures Ranks(Bytewise(), Rank)
  {
    var c := Bytewise();
    forall a, b ensures c.less(a, b) <==> Rank(a) < Rank(b) {
      BytesLessTotal(a, b);
      if BytesLess(a, b) { RankAscends(a, b); }
      if BytesLess(b, a) { RankAscends(b, a); }
    }
  }

  /** A pair as the entry it stores; the low byte of the tag is the type. */
  function EntryOf(rank: Bytes -> UserKey, text: Bytes -> Value, p: Pair): Entry {
    Entry(rank(UserPart(p.0)), Tag(p.0) / 256, if Tag(p.0) % 256 == 1 then Put(text(p.1)) else Delete)
  }

  function EntriesOf(rank: Bytes -> UserKey, text: Bytes -> Value, pairs: seq<Pair>): (es: seq<Entry>)
    ensures |es| == |pairs|
  {
    seq(|pairs|, i requires 0 <= i < |pairs| => EntryOf(rank, text, pairs[i]))
  }

  /** Every key has a type that ParseInternalKey accepts. */
  ghost predicate Typed(pairs: seq<Pair>) { forall p :: p in pairs ==> Tag(p.0) % 256 <= 1 }

  /** LookupKey(user, s) without its length. */
  function SeekBytes(user: Bytes, s: nat): Bytes
    requires s <= MAX_SEQUENCE
  {
    WithTag(user, s * 256 + 1)
  }

  lemma RankDecides(c: Comparator, rank: Bytes -> UserKey, a: Bytes, b: Bytes)
    requires Lawful(c) && Ranks(c, rank)
    ensures (c.less(a, b) <==> rank(a) < rank(b)) && (a == b <==> rank(a) == rank(b))
  {
    assert c.less(a, b) <==> rank(a) < rank(b);
    assert c.less(b, a) <==> rank(b) < rank(a);
  }

  lemma OrderOfEntries(c: Comparator, rank: Bytes -> UserKey, text: Bytes -> Value, p: Pair, q: Pair)
    requires Lawful(c) && Ranks(c, rank) && Tag(p.0) % 256 <= 1 && Tag(q.0) % 256 <= 1
    ensures InternalLess(c, p.0, q.0) <==> Before(EntryOf(rank, text, p), EntryOf(rank, text, q))
  {
    RankDecides(c, rank, UserPart(p.0), UserPart(q.0));
    assert PackedTag(EntryOf(rank, text, p)) == Tag(p.0) && PackedTag(EntryOf(rank, text, q)) == Tag(q.0);
    hide Lawful;
    hide Tag;
    hide UserPart;
  }

  lemma OrderOfSeek(c: Comparator, rank: Bytes -> UserKey, text: Bytes -> Value, p: Pair, user: Bytes, s: nat)
    requires Lawful(c) && Ranks(c, rank) && Tag(p.0) % 256 <= 1 && s <= MAX_SEQUENCE
    ensures InternalLess(c, p.0, SeekBytes(user, s)) <==> Before(EntryOf(rank, text, p), SeekKey(rank(user), s))
    ensures UserPart(p.0) == UserPart(SeekBytes(user, s)) <==> EntryOf(rank, text, p).ukey == rank(user)
  {
    hide Lawful;
    hide Ranks;
    hide Tag;
    hide UserPart;
    hide WithTag;
    Parts(user, s * 256 + 1);
    RankDecides(c, rank, UserPart(p.0), user);
    assert PackedTag(EntryOf(rank, text, p)) == Tag(p.0) && PackedTag(SeekKey(rank(user), s)) == s * 256 + 1;
  }

  /** What the store's model assumes of one sorted run. */
  lemma ScanIsLookupRun(c: Comparator, rank: Bytes -> UserKey, text: Bytes -> Value, pairs: seq<Pair>, user: Bytes,
                        s: nat)
    requires Lawful(c) && Ranks(c, rank) && Typed(pairs) && s <= MAX_SEQUENCE
    ensures Versions.LookupRun(EntriesOf(rank, text, pairs), rank(user), s)
         == match ScanAnswer(c, pairs, SeekBytes(user, s))
             case None => None
             case Some(p) => Some(EntryOf(rank, text, p))
  {
    var es, k, key := EntriesOf(rank, text, pairs), SeekBytes(user, s), SeekKey(rank(user), s);
    var i, j := FirstFrom(c, pairs, k), Versions.SeekIndex(es, key);
    forall n | 0 <= n < |pairs|
      ensures InternalLess(c, pairs[n].0, k) <==> Before(es[n], key)
      ensures UserPart(pairs[n].0) == UserPart(k) <==> es[n].ukey == rank(user)
    {
      assert pairs[n] in pairs;
      OrderOfSeek(c, rank, text, pairs[n], user, s);
    }
    assert i == j;
  }

  lemma EntriesSorted(c: Comparator, rank: Bytes -> UserKey, text: Bytes -> Value, pairs: seq<Pair>)
    requires Lawful(c) && Ranks(c, rank) && Typed(pairs) && KeysAscend(c, pairs)
    ensures Sorted(EntriesOf(rank, text, pairs))
  {
    var less, es := InternalOrder(c), EntriesOf(rank, text, pairs);
    forall i, j | 0 <= i < j < |es| ensures Before(es[i], es[j]) {
      assert less(pairs[i].0, pairs[j].0) && pairs[i] in pairs && pairs[j] in pairs;
      OrderOfEntries(c, rank, text, pairs[i], pairs[j]);
    }
  }

  /** Reading user key `user` at sequence s from a table built of these pairs answers the
      read as all the entries in it do. */
  method GetFromTable(o: Options, pairs: seq<Pair>, user: Bytes, s: nat, paranoidChecks: bool,
                      rank: Bytes -> UserKey, text: Bytes -> Value, ghost perKey: nat) returns (hit: Option<Entry>)
    requires LawfulOptions(o) && KeysAscend(o.comparator, pairs) && Fits(pairs, perKey) && Typed(pairs)
    requires o.policy.Some? ==> FilterBounded(InternalPolicy(o.policy.value), perKey)
    requires Ranks(o.comparator, rank) && s <= MAX_SEQUENCE
    ensures hit == Versions.LookupRun(EntriesOf(rank, text, pairs), rank(user), s)
    ensures Versions.Answers(Elements(EntriesOf(rank, text, pairs)), rank(user), s, hit)
  {
    hide Fits;
    var k := SeekBytes(user, s);
    var ok, r := BuildAndGet(o, pairs, k, paranoidChecks, perKey);
    var answer := Answer(k, r);
    hit := match answer case None => None case Some(p) => Some(EntryOf(rank, text, p));
    ScanIsLookupRun(o.comparator, rank, text, pairs, user, s);
    EntriesSorted(o.comparator, rank, text, pairs);
    Versions.LookupAnswers(EntriesOf(rank, text, pairs), rank(user), s);
  }

  /** The bytewise comparator and a Bloom filter meet what is asked of them. */
  lemma BuiltInsAreLawful(o: Options, p: Bloom.BloomFilterPolicy)
    requires o.comparator == Bytewise() && o.policy == Some(Bloom.Policy(p)) && Bloom.Valid(p)
    requires LawfulCodec(o.codec) && o.interval >= 1 && |o.policyName| < LIMIT / 2
    ensures LawfulOptions(o) && FilterBounded(InternalPolicy(Bloom.Policy(p)), p.bitsPerKey + 18)
  {
    BytewiseIsLawful();
    Bloom.BloomHasNoFalseNegatives(p);
    forall keys: seq<Bytes> | keys != []
      ensures |InternalPolicy(Bloom.Policy(p)).create(keys)| <= (p.bitsPerKey + 18) * |keys|
    {
      Bloom.FilterSize(p, UserParts(keys));
    }
  }
}
