/** TableBuilder (table/table_builder.cc): data blocks cut by size, an index entry made
    only when the next key is known, filters, and the closing blocks. */
module TableBuilding {
  import opened InternalKeys
  import opened Lists
  import opened Coding
  import opened Blocks
  import opened BlockIteration
  import opened KeyOrder
  import opened Filters
  import opened TableFormat
  import opened TableLayout
  import LogFormat

  // ---- sizes ----

  /** An upper bound on the file bytes that these pairs need. */
  function Weight(pairs: seq<Pair>): nat { TotalSize(pairs) + 40 * |pairs| }

  /** Sizes and offsets fit 32 bits; a filter takes at most perKey bytes a key. */
  ghost predicate Fits(pairs: seq<Pair>, perKey: nat) { Weight(pairs) + 100 < LIMIT && perKey * |pairs| < LIMIT }

  ghost predicate FilterBounded(p: FilterPolicy, perKey: nat) {
    forall keys :: keys != [] ==> |p.create(keys)| <= perKey * |keys|
  }

  lemma {:induction false} TotalSizeOfBoth(a: seq<Pair>, b: seq<Pair>)
    ensures TotalSize(a + b) == TotalSize(a) + TotalSize(b)
    decreases |b|
  {
    if b == [] {
      assert a + b == a;
    } else {
      TotalSizeOfBoth(a, b[..|b| - 1]);
      assert (a + b)[..|a + b| - 1] == a + b[..|b| - 1];
    }
  }

  /** The size of a finished block with these pairs is at most this. */
  function BlockSpace(pairs: seq<Pair>): nat { TotalSize(pairs) + 4 * |pairs| + 8 }

  // ---- the state, as values ----

  /** Blocks written, their handles, the index entries so far, the pairs of the block
      being filled, the filter's groups, the keys waiting for theirs, and every pair added. */
  datatype Build = Build(blocks: seq<seq<Pair>>, handles: seq<Handle>, index: seq<Pair>, current: seq<Pair>,
                         groups: seq<seq<Bytes>>, waiting: seq<Bytes>, added: seq<Pair>)

  /** One index entry is owed exactly while `pending`, and then no block is being filled. */
  ghost predicate Shape(s: Build, pending: bool) {
    && |s.handles| == |s.blocks|
    && (if pending then s.blocks != [] && s.current == [] && |s.index| == |s.blocks| - 1
        else |s.index| == |s.blocks| && (s.blocks != [] ==> s.current != []))
  }

  ghost predicate Holds(o: Options, s: Build) {
    s.added == Concat(s.blocks) + s.current && Ascending(s.added, InternalOrder(o.comparator))
  }

  ghost predicate FilterOk(o: Options, fileSize: nat, s: Build) {
    o.policy.Some? ==>
      Filtered(s.blocks, s.handles, s.groups, s.waiting) && |s.groups| == fileSize / BASE
      && forall p :: p in s.current ==> p.0 in s.waiting
  }

  ghost predicate Small(fileSize: nat, s: Build, pending: bool, lastKey: Bytes) {
    var flushed := Concat(s.blocks);
    && fileSize <= Weight(flushed) && |s.index| <= |s.blocks| <= |flushed|
    && TotalSize(s.index) + (if pending then 35 + |lastKey| else 0) <= TotalSize(flushed) + 20 * |flushed|
  }

  ghost predicate Good(o: Options, file: Bytes, s: Build, pending: bool, lastKey: Bytes) {
    && Shape(s, pending) && Holds(o, s) && HasBlocks(o, file, s.blocks, s.handles)
    && IndexOk(o.comparator, s.blocks, s.handles, s.current, s.index)
    && FilterOk(o, |file|, s) && Small(|file|, s, pending, lastKey) && lastKey == LastKey(s.added)
  }

  lemma NothingBuilt(o: Options, perKey: nat)
    ensures Good(o, [], Build([], [], [], [], [], [], []), false, []) && Fits([], perKey)
    ensures CutOf(o, []) == Cut(0, [], [], None)
  {
    hide Lawful;
  }

  /** The next pair goes into the block being filled. */
  function Added(o: Options, s: Build, pair: Pair): Build {
    s.(current := s.current + [pair], added := s.added + [pair],
       waiting := if o.policy.Some? then s.waiting + [pair.0] else s.waiting)
  }

  lemma AddedIsGood(o: Options, file: Bytes, s: Build, lastKey: Bytes, pair: Pair)
    requires Good(o, file, s, false, lastKey) && Lawful(o.comparator)
    requires s.added != [] ==> InternalLess(o.comparator, lastKey, pair.0)
    ensures Good(o, file, Added(o, s, pair), false, pair.0)
  {
    var s' := Added(o, s, pair);
    hide HasBlocks;
    AscendsOn(o.comparator, s.added, pair);
    assert s'.added == Concat(s'.blocks) + s'.current;
    hide Separates;
    hide Concat;
    forall b | 0 <= b < |s'.index| ensures Indexed(o.comparator, s'.blocks, s'.handles, s'.current, s'.index, b) {
      assert Indexed(o.comparator, s.blocks, s.handles, s.current, s.index, b);
      assert KeyBehind(s'.blocks, s'.current, b) == KeyBehind(s.blocks, s.current, b);
    }
    if o.policy.Some? { FilteredWaits(s.blocks, s.handles, s.groups, s.waiting, pair.0); }
  }

  lemma AscendsOn(c: Comparator, pairs: seq<Pair>, pair: Pair)
    requires Ascending(pairs, InternalOrder(c)) && Lawful(c)
    requires pairs != [] ==> InternalLess(c, LastKey(pairs), pair.0)
    ensures Ascending(pairs + [pair], InternalOrder(c))
  {
    InternalTransitive(c);
    var less, n := InternalOrder(c), |pairs| - 1;
    forall i | 0 <= i < |pairs| ensures less(pairs[i].0, pair.0) {
      if i < n { assert less(pairs[i].0, pairs[n].0) && less(pairs[n].0, pair.0); }
    }
  }

  lemma FilteredWaits(blocks: seq<seq<Pair>>, handles: seq<Handle>, groups: seq<seq<Bytes>>, waiting: seq<Bytes>,
                      key: Bytes)
    requires Filtered(blocks, handles, groups, waiting)
    ensures Filtered(blocks, handles, groups, waiting + [key])
  {
    forall b | 0 <= b < |blocks| ensures InFilter(blocks[b], handles[b], groups, waiting + [key]) {
      KeyWaits(blocks[b], handles[b], groups, waiting, key);
    }
  }

  /** The owed index entry is made, now that the next key is known. */
  function Resumed(o: Options, s: Build, entry: Pair, pair: Pair): Build {
    Added(o, s.(index := s.index + [entry]), pair)
  }

  lemma ResumedIsGood(o: Options, file: Bytes, s: Build, lastKey: Bytes, sep: Bytes, handle: Bytes, pair: Pair)
    requires Good(o, file, s, true, lastKey) && Lawful(o.comparator) && LastKeysMatch(s)
    requires InternalLess(o.comparator, lastKey, pair.0) && sep == InternalSeparator(o.comparator, lastKey, pair.0)
    requires handle == HandleBytes(s.handles[|s.handles| - 1]) && |handle| <= 20
    ensures Good(o, file, Resumed(o, s, (sep, handle), pair), false, pair.0)
  {
    hide HasBlocks;
    hide IndexOk;
    hide Filtered;
    hide Concat;
    hide Ascending;
    hide TotalSize;
    OnePairMore(s.index, (sep, handle));
    SeparatorSeparates(o.comparator, lastKey, pair.0);
    ResumedIndex(o, s, sep, handle, pair);
    AscendsOn(o.comparator, s.added, pair);
    if o.policy.Some? { FilteredWaits(s.blocks, s.handles, s.groups, s.waiting, pair.0); }
  }

  lemma ResumedIndex(o: Options, s: Build, sep: Bytes, handle: Bytes, pair: Pair)
    requires Shape(s, true) && IndexOk(o.comparator, s.blocks, s.handles, s.current, s.index)
    requires var last := LastKey(s.blocks[|s.blocks| - 1]);
             InternalLess(o.comparator, last, pair.0) && sep == InternalSeparator(o.comparator, last, pair.0)
    requires handle == HandleBytes(s.handles[|s.handles| - 1]) && Lawful(o.comparator)
    ensures var s' := Resumed(o, s, (sep, handle), pair);
            IndexOk(o.comparator, s'.blocks, s'.handles, s'.current, s'.index)
  {
    var c, n, s' := o.comparator, |s.index|, Resumed(o, s, (sep, handle), pair);
    SeparatorSeparates(c, LastKey(s.blocks[n]), pair.0);
    assert KeyBehind(s'.blocks, s'.current, n) == Some(pair.0);
    assert Separates(c, LastKey(s.blocks[n]), sep, Some(pair.0));
    hide Separates;
    forall b | 0 <= b < |s'.index| ensures Indexed(c, s'.blocks, s'.handles, s'.current, s'.index, b) {
      if b < n { assert Indexed(c, s.blocks, s.handles, s.current, s.index, b); }
    }
  }

  /** With no block being filled, the last key added is the last key of the last block. */
  ghost predicate LastKeysMatch(s: Build) {
    s.blocks != [] && s.current == [] ==> LastKey(s.added) == LastKey(s.blocks[|s.blocks| - 1])
  }

  lemma LastKeyOfBlocks(o: Options, file: Bytes, s: Build, pending: bool, lastKey: Bytes)
    requires Good(o, file, s, pending, lastKey)
    ensures LastKeysMatch(s)
  {
    if s.blocks != [] && s.current == [] {
      var last := s.blocks[|s.blocks| - 1];
      assert last != [];
      assert s.added == Concat(s.blocks[..|s.blocks| - 1]) + last;
    }
  }

  function NextState(o: Options, s: Build, pending: bool, owed: Pair, pair: Pair): Build {
    if pending then Resumed(o, s, owed, pair) else Added(o, s, pair)
  }

  lemma NextStateIs(o: Options, s: Build, pending: bool, owed: Pair, pair: Pair)
    ensures NextState(o, s, pending, owed, pair)
         == Build(s.blocks, s.handles, s.index + if pending then [owed] else [], s.current + [pair], s.groups,
                  if o.policy.Some? then s.waiting + [pair.0] else s.waiting, s.added + [pair])
  {
  }

  lemma NextIsGood(o: Options, file: Bytes, s: Build, pending: bool, lastKey: Bytes, owed: Pair, pair: Pair)
    requires Good(o, file, s, pending, lastKey) && LawfulOptions(o)
    requires s.added != [] ==> InternalLess(o.comparator, lastKey, pair.0)
    requires pending ==> s.handles != [] && s.added != [] && |owed.1| <= 20
                         && owed == (InternalSeparator(o.comparator, lastKey, pair.0),
                                     HandleBytes(s.handles[|s.handles| - 1]))
    ensures Good(o, file, NextState(o, s, pending, owed, pair), false, pair.0)
  {
    hide Lawful;
    LastKeyOfBlocks(o, file, s, pending, lastKey);
    hide Good;
    hide InternalSeparator;
    hide HandleBytes;
    if pending { ResumedIsGood(o, file, s, lastKey, owed.0, owed.1, pair); }
    else { AddedIsGood(o, file, s, lastKey, pair); }
  }

  /** The block being filled is written at the end of the file. */
  function Flushed(o: Options, s: Build, h: Handle, size: nat): Build {
    var filter := if o.policy.Some? then Started(s.groups, s.waiting, size / BASE) else (s.groups, s.waiting);
    Build(s.blocks + [s.current], s.handles + [h], s.index, [], filter.0, filter.1, s.added)
  }

  lemma FlushedIsGood(o: Options, file: Bytes, s: Build, lastKey: Bytes, h: Handle, more: Bytes)
    requires Good(o, file, s, false, lastKey) && s.current != []
    requires h.offset == |file| && HasBlock(o, file + more, h, s.current) && |more| <= Weight(s.current)
    ensures Good(o, file + more, Flushed(o, s, h, |file + more|), true, lastKey)
  {
    hide HasBlocks;
    hide HasBlock;
    hide IndexOk;
    hide Small;
    hide Filtered;
    hide Started;
    hide Concat;
    hide Ascending;
    hide Weight;
    OneBlockMore(o, file, more, s.blocks, s.handles, s.current, h);
    ConcatMore(s.blocks, s.current);
    FlushedIndex(o, s, h, |file + more|);
    FlushedSmall(o, s, h, |file|, |more|, lastKey);
    if o.policy.Some? { FlushedFilter(o, s, h, |file|, |file + more|); }
  }

  lemma ConcatMore(blocks: seq<seq<Pair>>, block: seq<Pair>)
    ensures Concat(blocks + [block]) == Concat(blocks) + block
  {
    assert (blocks + [block])[..|blocks|] == blocks;
  }

  lemma FlushedIndex(o: Options, s: Build, h: Handle, size: nat)
    requires IndexOk(o.comparator, s.blocks, s.handles, s.current, s.index) && Shape(s, false) && s.current != []
    ensures var s' := Flushed(o, s, h, size); IndexOk(o.comparator, s'.blocks, s'.handles, s'.current, s'.index)
  {
    hide Separates;
    hide Started;
    var s' := Flushed(o, s, h, size);
    forall b | 0 <= b < |s'.index| ensures Indexed(o.comparator, s'.blocks, s'.handles, s'.current, s'.index, b) {
      assert Indexed(o.comparator, s.blocks, s.handles, s.current, s.index, b);
      assert KeyBehind(s'.blocks, s'.current, b) == KeyBehind(s.blocks, s.current, b);
    }
  }

  lemma FlushedSmall(o: Options, s: Build, h: Handle, size: nat, more: nat, lastKey: Bytes)
    requires Small(size, s, false, lastKey) && s.current != [] && more <= Weight(s.current)
    requires lastKey == LastKey(s.current) && Concat(s.blocks + [s.current]) == Concat(s.blocks) + s.current
    ensures Small(size + more, Flushed(o, s, h, size + more), true, lastKey)
  {
    TotalSizeOfBoth(Concat(s.blocks), s.current);
    assert TotalSize(s.current) >= 15 + |lastKey|;
    hide TotalSize;
    hide Concat;
    hide Started;
  }

  lemma FlushedFilter(o: Options, s: Build, h: Handle, size: nat, size': nat)
    requires o.policy.Some? && Filtered(s.blocks, s.handles, s.groups, s.waiting) && |s.groups| == size / BASE
             && size <= size'
    requires h.offset == size && forall p :: p in s.current ==> p.0 in s.waiting
    ensures var s' := Flushed(o, s, h, size');
            Filtered(s'.blocks, s'.handles, s'.groups, s'.waiting) && |s'.groups| == size' / BASE
  {
    var s' := Flushed(o, s, h, size');
    assert InFilter(s.current, h, s.groups, s.waiting);
    StartedKeeps(s.current, h, s.groups, s.waiting, size' / BASE);
    forall b | 0 <= b < |s'.blocks| ensures InFilter(s'.blocks[b], s'.handles[b], s'.groups, s'.waiting) {
      if b < |s.blocks| { StartedKeeps(s.blocks[b], s.handles[b], s.groups, s.waiting, size' / BASE); }
    }
  }

  // ---- the finished table ----

  /** What a finished file holds, and where. */
  datatype TableContents = TableContents(blocks: seq<seq<Pair>>, handles: seq<Handle>, index: seq<Pair>,
                                         groups: seq<seq<Bytes>>, added: seq<Pair>,
                         filterHandle: Handle, metaindexHandle: Handle, indexHandle: Handle)

  /** "filter." */
  const FILTER_PREFIX: Bytes := [102, 105, 108, 116, 101, 114, 46]

  function MetaPairs(o: Options, filterHandle: Handle): seq<Pair> {
    if o.policy.Some? then [(FILTER_PREFIX + o.policyName, HandleBytes(filterHandle))] else []
  }

  ghost predicate HasFilter(o: Options, file: Bytes, h: Handle, groups: seq<seq<Bytes>>)
    requires o.policy.Some?
  {
    exists contents :: Stored(o.crc, o.codec, file, h, contents)
        && FilterBlock(InternalPolicy(o.policy.value), groups, contents)
  }

  ghost predicate HasFooter(file: Bytes, metaindexHandle: Handle, indexHandle: Handle) {
    |file| >= FOOTER && IsFooter(file[|file| - FOOTER..], metaindexHandle, indexHandle)
  }

  /** The contents of the data blocks, with one index entry each. */
  ghost predicate DataOk(o: Options, t: TableContents) {
    && t.added == Concat(t.blocks) && Ascending(t.added, InternalOrder(o.comparator))
    && |t.index| == |t.blocks| && IndexOk(o.comparator, t.blocks, t.handles, [], t.index)
  }

  ghost predicate IsTable(o: Options, file: Bytes, t: TableContents) {
    && DataOk(o, t) && HasBlocks(o, file, t.blocks, t.handles)
    && HasBlock(o, file, t.indexHandle, t.index)
    && HasBlock(o, file, t.metaindexHandle, MetaPairs(o, t.filterHandle))
    && (o.policy.Some? ==> HasFilter(o, file, t.filterHandle, t.groups) && Filtered(t.blocks, t.handles, t.groups, []))
    && HasFooter(file, t.metaindexHandle, t.indexHandle)
  }

  ghost predicate LawfulOptions(o: Options) {
    && Lawful(o.comparator) && LawfulCodec(o.codec) && o.interval >= 1 && |o.policyName| < LIMIT / 2
    && (o.policy.Some? ==> NoFalseNegatives(o.policy.value))
  }

  /** The groups once the waiting keys have got their filter. */
  function ClosedGroups(groups: seq<seq<Bytes>>, waiting: seq<Bytes>): seq<seq<Bytes>> {
    if waiting == [] then groups else groups + [waiting]
  }

  lemma ClosedFilter(blocks: seq<seq<Pair>>, handles: seq<Handle>, groups: seq<seq<Bytes>>, waiting: seq<Bytes>)
    requires Filtered(blocks, handles, groups, waiting) && forall b :: 0 <= b < |blocks| ==> blocks[b] != []
    ensures Filtered(blocks, handles, ClosedGroups(groups, waiting), [])
  {
    var closed := ClosedGroups(groups, waiting);
    forall b | 0 <= b < |blocks| ensures InFilter(blocks[b], handles[b], closed, []) {
      assert InFilter(blocks[b], handles[b], groups, waiting) && blocks[b][0] in blocks[b];
    }
  }

  /** The last index entry: nothing comes behind it. */
  lemma ClosedIndex(o: Options, s: Build, succ: Bytes, handle: Bytes)
    requires Shape(s, true) && IndexOk(o.comparator, s.blocks, s.handles, [], s.index) && Lawful(o.comparator)
    requires succ == InternalSuccessor(o.comparator, LastKey(s.blocks[|s.blocks| - 1]))
    requires handle == HandleBytes(s.handles[|s.handles| - 1])
    ensures IndexOk(o.comparator, s.blocks, s.handles, [], s.index + [(succ, handle)])
  {
    var c, n, index' := o.comparator, |s.index|, s.index + [(succ, handle)];
    SuccessorCovers(c, LastKey(s.blocks[n]));
    assert Separates(c, LastKey(s.blocks[n]), succ, None);
    hide Separates;
    forall b | 0 <= b < |index'| ensures Indexed(c, s.blocks, s.handles, [], index', b) {
      if b < n { assert Indexed(c, s.blocks, s.handles, [], s.index, b); }
    }
  }

  lemma FilterStays(o: Options, file: Bytes, more: Bytes, h: Handle, groups: seq<seq<Bytes>>)
    requires o.policy.Some? && HasFilter(o, file, h, groups)
    ensures HasFilter(o, file + more, h, groups)
  {
    hide FilterBlock;
    var contents :| Stored(o.crc, o.codec, file, h, contents)
        && FilterBlock(InternalPolicy(o.policy.value), groups, contents);
    StaysStored(o.crc, o.codec, file, more, h, contents);
  }

  lemma FilterStored(o: Options, file: Bytes, h: Handle, groups: seq<seq<Bytes>>, contents: Bytes)
    requires o.policy.Some? && FilterBlock(InternalPolicy(o.policy.value), groups, contents)
    requires h.offset == |file| && h.size == |contents|
    ensures HasFilter(o, file + RawBlock(o.crc, contents, NO_COMPRESSION), h, groups)
  {
    hide FilterBlock;
    JustStored(o.crc, o.codec, file, h, contents, contents, NO_COMPRESSION);
  }

  lemma FilterBlockSize(p: FilterPolicy, groups: seq<seq<Bytes>>, contents: Bytes)
    requires FilterBlock(p, groups, contents)
    ensures |contents| < LIMIT + 4 * |groups| + 5
  {
    hide FiltersOf;
  }

  lemma MetaIsSmall(o: Options, h: Handle)
    requires |o.policyName| < LIMIT / 2
    ensures BlockSpace(MetaPairs(o, h)) + TRAILER < LIMIT
  {
    Varint64Fits(h.offset);
    Varint64Fits(h.size);
    hide Varint;
    OnePairMore([], (FILTER_PREFIX + o.policyName, HandleBytes(h)));
    assert [] + MetaPairs(o, h) == MetaPairs(o, h);
  }

  lemma SeparatorIsShort(c: Comparator, start: Bytes, limit: Bytes)
    ensures |InternalSeparator(c, start, limit)| <= |start|
  {
  }

  lemma RoomForPair(o: Options, file: Bytes, s: Build, pending: bool, lastKey: Bytes, pair: Pair, perKey: nat)
    requires Good(o, file, s, pending, lastKey) && Fits(s.added + [pair], perKey)
    ensures TotalSize(s.index) < LIMIT && TotalSize(s.current) < LIMIT && |lastKey| < LIMIT
    ensures |pair.0| < LIMIT && |pair.1| < LIMIT && (pending ==> s.added != [] && s.handles != [])
  {
    OnePairMore(s.added, pair);
    TotalSizeOfBoth(Concat(s.blocks), s.current);
  }

  lemma RoomForBlock(o: Options, file: Bytes, s: Build, pending: bool, lastKey: Bytes, perKey: nat)
    requires Good(o, file, s, pending, lastKey) && Fits(s.added, perKey) && s.current != []
    ensures !pending
    ensures BlockSpace(s.current) + TRAILER <= Weight(s.current) && BlockSpace(s.current) < LIMIT && |file| < LIMIT
    ensures perKey * |s.added| < LIMIT && (o.policy.Some? ==> |s.groups| == |file| / BASE)
  {
    TotalSizeOfBoth(Concat(s.blocks), s.current);
  }

  lemma {:induction false} StartedWaiting(groups: seq<seq<Bytes>>, waiting: seq<Bytes>, index: nat)
    requires |groups| <= index
    ensures Started(groups, waiting, index).1 == if index > |groups| then [] else waiting
    decreases index - |groups|
  {
    if index > |groups| { StartedWaiting(groups + [waiting], [], index); }
  }

  lemma OneKeyMore(perKey: nat, n: nat)
    ensures perKey * (n + 1) == perKey * n + perKey
  {
  }

  /** The index with the entry still owed at the end. */
  function FinalIndex(o: Options, index: seq<Pair>, pending: bool, lastKey: Bytes, h: Handle): seq<Pair> {
    index + if pending then [(InternalSuccessor(o.comparator, lastKey), HandleBytes(h))] else []
  }

  function FinalTable(o: Options, s: Build, pending: bool, lastKey: Bytes, h: Handle, filterHandle: Handle,
                      metaindexHandle: Handle, indexHandle: Handle): TableContents {
    TableContents(s.blocks, s.handles, FinalIndex(o, s.index, pending, lastKey, h), ClosedGroups(s.groups, s.waiting),
                  s.added,
          filterHandle, metaindexHandle, indexHandle)
  }

  lemma RoomToFinish(o: Options, file: Bytes, s: Build, pending: bool, lastKey: Bytes, h: Handle, perKey: nat)
    requires Good(o, file, s, pending, lastKey) && Fits(s.added, perKey) && s.current == []
    ensures |file| < LIMIT && perKey * |s.added| < LIMIT
    ensures (o.policy.Some? ==> |s.groups| < LIMIT) && TotalSize(s.index) < LIMIT && |lastKey| < LIMIT
    ensures BlockSpace(FinalIndex(o, s.index, pending, lastKey, h)) < LIMIT
  {
    TotalSizeOfBoth(Concat(s.blocks), s.current);
    if pending {
      var succ := InternalSuccessor(o.comparator, lastKey);
      HandleIsShort(h);
      SuccessorIsShort(o.comparator, lastKey);
      hide HandleBytes;
      hide InternalSuccessor;
      OnePairMore(s.index, (succ, HandleBytes(h)));
    } else {
      assert FinalIndex(o, s.index, pending, lastKey, h) == s.index;
    }
  }

  lemma HandleIsShort(h: Handle)
    ensures |HandleBytes(h)| <= 20
  {
    Varint64Fits(h.offset);
    Varint64Fits(h.size);
  }

  lemma SuccessorIsShort(c: Comparator, key: Bytes)
    ensures |InternalSuccessor(c, key)| <= |key|
  {
  }

  /** The data blocks and their index, once the last entry is made. */
  lemma FinishedData(o: Options, file: Bytes, s: Build, pending: bool, lastKey: Bytes, h: Handle, t: TableContents)
    requires Good(o, file, s, pending, lastKey) && s.current == [] && LawfulOptions(o)
    requires pending ==> s.handles != [] && h == s.handles[|s.handles| - 1]
    requires t == FinalTable(o, s, pending, lastKey, h, t.filterHandle, t.metaindexHandle, t.indexHandle)
    ensures DataOk(o, t) && (o.policy.Some? ==> Filtered(t.blocks, t.handles, t.groups, []))
  {
    hide Lawful;
    LastKeyOfBlocks(o, file, s, pending, lastKey);
    hide Indexed;
    hide InternalSuccessor;
    hide HandleBytes;
    hide HasBlock;
    hide Ascending;
    if pending { ClosedIndex(o, s, InternalSuccessor(o.comparator, lastKey), HandleBytes(h)); }
    if o.policy.Some? { ClosedFilter(s.blocks, s.handles, s.groups, s.waiting); }
    assert s.added == Concat(s.blocks);
    hide InFilter;
    hide Concat;
  }

  lemma PendingHandles(o: Options, file: Bytes, s: Build, pending: bool, lastKey: Bytes)
    requires Good(o, file, s, pending, lastKey)
    ensures pending ==> s.handles != []
  {
  }

  lemma FileHasBlocks(o: Options, file: Bytes, s: Build, pending: bool, lastKey: Bytes)
    requires Good(o, file, s, pending, lastKey)
    ensures HasBlocks(o, file, s.blocks, s.handles)
  {
  }

  /** What was written stays where it is when more is appended. */
  lemma Assembled(o: Options, file: Bytes, filter: Bytes, meta: Bytes, index: Bytes, footer: Bytes, t: TableContents)
    requires DataOk(o, t) && (o.policy.Some? ==> Filtered(t.blocks, t.handles, t.groups, []))
             && HasBlocks(o, file, t.blocks, t.handles)
    requires o.policy.Some? ==> HasFilter(o, file + filter, t.filterHandle, t.groups)
    requires HasBlock(o, file + filter + meta, t.metaindexHandle, MetaPairs(o, t.filterHandle))
    requires HasBlock(o, file + filter + meta + index, t.indexHandle, t.index)
    requires IsFooter(footer, t.metaindexHandle, t.indexHandle)
    ensures IsTable(o, file + filter + meta + index + footer, t)
  {
    hide DataOk;
    hide HasBlocks;
    hide HasBlock;
    hide HasFilter;
    hide Filtered;
    hide MetaPairs;
    var all := file + filter + meta + index + footer;
    assert all == file + (filter + meta + index + footer) == (file + filter) + (meta + index + footer);
    assert all == (file + filter + meta) + (index + footer);
    BlocksStay(o, file, filter + meta + index + footer, t.blocks, t.handles);
    if o.policy.Some? { FilterStays(o, file + filter, meta + index + footer, t.filterHandle, t.groups); }
    BlockStays(o, file + filter + meta, index + footer, t.metaindexHandle, MetaPairs(o, t.filterHandle));
    BlockStays(o, file + filter + meta + index, footer, t.indexHandle, t.index);
    assert all[|all| - FOOTER..] == footer;
  }

  lemma FinishedTable(o: Options, file: Bytes, s: Build, pending: bool, lastKey: Bytes, h: Handle,
                      filter: Bytes, meta: Bytes, index: Bytes, footer: Bytes, t: TableContents)
    requires Good(o, file, s, pending, lastKey) && s.current == [] && LawfulOptions(o)
    requires pending ==> s.handles != [] && h == s.handles[|s.handles| - 1]
    requires t == FinalTable(o, s, pending, lastKey, h, t.filterHandle, t.metaindexHandle, t.indexHandle)
    requires o.policy.Some? ==> HasFilter(o, file + filter, t.filterHandle, ClosedGroups(s.groups, s.waiting))
    requires HasBlock(o, file + filter + meta, t.metaindexHandle, MetaPairs(o, t.filterHandle))
    requires HasBlock(o, file + filter + meta + index, t.indexHandle, FinalIndex(o, s.index, pending, lastKey, h))
    requires IsFooter(footer, t.metaindexHandle, t.indexHandle)
    ensures IsTable(o, file + filter + meta + index + footer, t)
  {
    hide Good;
    hide LawfulOptions;
    hide HasFilter;
    hide HasBlock;
    hide FinalIndex;
    hide ClosedGroups;
    hide MetaPairs;
    hide IsFooter;
    hide DataOk;
    FinishedData(o, file, s, pending, lastKey, h, t);
    FileHasBlocks(o, file, s, pending, lastKey);
    Assembled(o, file, filter, meta, index, footer, t);
  }

  class TableBuilder {
    const options: Options
    const dataBlock: BlockBuilder
    const indexBlock: BlockBuilder
    const filterBlock: FilterBlockBuilder?
    var file: Bytes  // everything appended; its length is offset
    var lastKey: Bytes
    var numEntries: nat
    var closed: bool
    var pendingIndexEntry: bool
    var pendingHandle: Handle
    ghost const perKey: nat
    ghost var blocks: seq<seq<Pair>>
    ghost var handles: seq<Handle>
    ghost var added: seq<Pair>

    ghost function Groups(): seq<seq<Bytes>>
      reads filterBlock
    { if filterBlock == null then [] else filterBlock.groups }

    ghost function Waiting(): seq<Bytes>
      reads filterBlock
    { if filterBlock == null then [] else filterBlock.pending }

    ghost function State(): Build
      reads this, dataBlock, indexBlock, filterBlock
    {
      Build(blocks, handles, indexBlock.layout.pairs, dataBlock.layout.pairs, Groups(), Waiting(), added)
    }

    /** The filter builder's part, after n keys: it has room for the keys that wait. */
    ghost predicate FilterReady(n: nat)
      reads filterBlock
    {
      && (filterBlock != null <==> options.policy.Some?)
      && (filterBlock != null ==>
            && filterBlock.Valid() && filterBlock.policy == InternalPolicy(options.policy.value)
            && FilterBounded(filterBlock.policy, perKey)
            && |filterBlock.result| + perKey * |filterBlock.pending| <= perKey * n)
    }

    ghost predicate Ready()
      reads this, dataBlock, indexBlock, filterBlock
    {
      && LawfulOptions(options) && dataBlock != indexBlock && dataBlock.Valid() && indexBlock.Valid()
         && FilterReady(|added|)
      && dataBlock.interval == options.interval && indexBlock.interval == 1
      && !closed && Fits(added, perKey) && numEntries == |added|
    }

    ghost predicate Valid()
      reads this, dataBlock, indexBlock, filterBlock
    {
      && Ready() && Good(options, file, State(), pendingIndexEntry, lastKey)
      && (pendingIndexEntry ==> pendingHandle == handles[|handles| - 1])
    }

    /** The blocks were cut by their size only. */
    ghost predicate CutBySize()
      reads this, dataBlock, indexBlock
    {
      CutOf(options, added) == Cut(|file|, dataBlock.layout.pairs, indexBlock.layout.pairs, Owed())
    }

    ghost function Owed(): Option<Bytes>
      reads this
    { if pendingIndexEntry then Some(HandleBytes(pendingHandle)) else None }

    /** FileSize() */
    function FileSize(): (size: nat)
      reads this, dataBlock, indexBlock
      ensures CutBySize() ==> size == SizeSoFar(options, added)
    { |file| }

    constructor (options: Options, ghost perKey: nat)
      requires LawfulOptions(options)
      requires options.policy.Some? ==> FilterBounded(InternalPolicy(options.policy.value), perKey)
      ensures Valid() && this.options == options && this.perKey == perKey && added == [] && CutBySize()
      ensures fresh(dataBlock) && fresh(indexBlock) && (filterBlock != null ==> fresh(filterBlock))
    {
      hide Good;
      hide Lawful;
      hide FilterBounded;
      hide Fits;
      hide CutOf;
      hide BlockBuilder.Valid;
      this.options, this.perKey := options, perKey;
      dataBlock := new BlockBuilder(options.interval);
      indexBlock := new BlockBuilder(1);
      file, lastKey, numEntries, closed, pendingIndexEntry, pendingHandle := [], [], 0, false, false, Handle(0, 0);
      blocks, handles, added := [], [], [];
      if options.policy.Some? {
        var f := new FilterBlockBuilder(InternalPolicy(options.policy.value));
        f.StartBlock(0);
        filterBlock := f;
      } else {
        filterBlock := null;
      }
      new;
      NothingBuilt(options, perKey);
    }

    lemma LastOfAdded()
      requires Valid()
      ensures lastKey == LastKey(added) && numEntries == |added|
    {
    }

    /** WriteRawBlock */
    method WriteRawBlock(raw: Bytes, compression: Byte) returns (h: Handle)
      requires |raw| < LIMIT * LIMIT && |file| < LIMIT * LIMIT
      modifies this`file
      ensures file == old(file) + RawBlock(options.crc, raw, compression) && h.offset == |old(file)| && h.size == |raw|
    {
      h := Handle(|file|, |raw|);
      file := file + raw;
      var trailer := [compression] + Fixed32(LogFormat.Mask(options.crc(raw + [compression])));
      file := file + trailer;
      assert file == old(file) + (raw + trailer);
      assert raw + trailer == RawBlock(options.crc, raw, compression);
    }

    /** What is stored of a block: its compressed form if that saves more than one byte in
        eight, else its own bytes. */
    ghost function StoredAs(raw: Bytes): (stored: (Bytes, Byte)) {
      if options.compress && options.codec.compress(raw).Some?
         && |options.codec.compress(raw).value| < |raw| - |raw| / 8
      then (options.codec.compress(raw).value, SNAPPY) else (raw, NO_COMPRESSION)
    }

    /** WriteBlock: finish the block, compress it if that pays, write it, start it over. */
    method WriteBlock(block: BlockBuilder) returns (h: Handle, ghost more: Bytes)
      requires LawfulOptions(options) && block.Valid() && BlockSpace(block.layout.pairs) < LIMIT
               && |file| < LIMIT * LIMIT
      modifies this`file, block
      ensures block.Valid() && block.layout.pairs == [] && h.offset == |old(file)|
      ensures HasBlock(options, file, h, old(block.layout.pairs))
      ensures file == old(file) + more && |more| <= BlockSpace(old(block.layout.pairs)) + TRAILER
      ensures exists raw :: IsBlock(raw, old(block.layout.pairs))
                            && more == RawBlock(options.crc, StoredAs(raw).0, StoredAs(raw).1)
      ensures !options.compress ==>
                h.size == BlockSize(block.interval, old(block.layout.pairs))
                && |more| == h.size + TRAILER
    {
      ghost var layout, data, restarts := block.layout, block.buffer, block.restarts;
      var raw := block.Finish();
      assert Finished(raw, layout, data, restarts);
      assert IsBlock(raw, layout.pairs);
      hide IsBlock;
      var contents, compression := raw, NO_COMPRESSION;
      if options.compress {
        var compressed := options.codec.compress(raw);
        if compressed.Some? && |compressed.value| < |raw| - |raw| / 8 {
          contents, compression := compressed.value, SNAPPY;
        }
      }
      JustStored(options.crc, options.codec, file, Handle(|file|, |contents|), raw, contents, compression);
      h := WriteRawBlock(contents, compression);
      more := RawBlock(options.crc, contents, compression);
      block.Reset();
    }

    method Add(key: Bytes, value: Bytes)
      requires Valid() && Fits(added + [(key, value)], perKey)
      requires numEntries > 0 ==> InternalLess(options.comparator, lastKey, key)
      modifies this, dataBlock, indexBlock, filterBlock
      ensures Valid() && added == old(added) + [(key, value)]
      ensures !options.compress && old(CutBySize()) ==> CutBySize()
    {
      hide Valid;
      hide Fits;
      hide InternalLess;
      hide CutOf;
      hide InternalSeparator;
      hide HandleBytes;
      hide BlockSize;
      hide Varint;
      hide BlockBuilder.Valid;
      LastOfAdded();
      CutMore(options, added, (key, value));
      ghost var index := indexBlock.layout.pairs
                         + if pendingIndexEntry then [(InternalSeparator(options.comparator, lastKey, key),
                                                       HandleBytes(pendingHandle))] else [];
      AddPair(key, value);
      BlocksAreValid();
      dataBlock.SizeIs();
      ghost var next := Cut(|file|, dataBlock.layout.pairs, index, None);
      var estimatedBlockSize := dataBlock.CurrentSizeEstimate();
      if estimatedBlockSize >= options.blockSize {
        HandleIs(|file|, BlockSize(options.interval, dataBlock.layout.pairs));
        Flush();
        assert !options.compress ==>
                 Cut(|file|, dataBlock.layout.pairs, indexBlock.layout.pairs, Owed())
                 == BlockCut(options, next);
      }
    }

    lemma BlocksAreValid()
      requires Valid()
      ensures dataBlock.Valid() && indexBlock.Valid() && dataBlock.interval == options.interval
              && indexBlock.interval == 1
    {
    }

    lemma HandleIs(offset: nat, size: nat)
      ensures forall h: Handle :: h.offset == offset && h.size == size ==>
                HandleBytes(h) == Varint(offset) + Varint(size)
    {
    }

    /** Add, up to the test for a full block. */
    method AddPair(key: Bytes, value: Bytes)
      requires Valid() && Fits(added + [(key, value)], perKey)
      requires numEntries > 0 ==> InternalLess(options.comparator, lastKey, key)
      modifies this, dataBlock, indexBlock, filterBlock
      ensures Valid() && added == old(added) + [(key, value)] && !pendingIndexEntry && dataBlock.layout.pairs != []
      ensures file == old(file) && dataBlock.layout.pairs == old(dataBlock.layout.pairs) + [(key, value)]
      ensures indexBlock.layout.pairs == old(indexBlock.layout.pairs)
              + if old(pendingIndexEntry) then [(InternalSeparator(options.comparator, old(lastKey), key),
                                                 old(HandleBytes(pendingHandle)))] else []
    {
      hide TotalSize;
      ghost var s, pending, last, pair := State(), pendingIndexEntry, lastKey, (key, value);
      hide LawfulOptions;
      hide Weight;
      hide InternalSeparator;
      hide HandleBytes;
      hide Good;
      hide Fits;
      hide BlockBuilder.Valid;
      hide FilterReady;
      hide Started;
      hide InternalLess;
      hide NextState;
      RoomForPair(options, file, s, pending, last, pair, perKey);
      indexBlock.SizeBound();
      dataBlock.SizeBound();
      ghost var owed := IndexFor(key);
      AddToFilter(key);
      lastKey := key;
      numEntries := numEntries + 1;
      assert FilterReady(numEntries);
      dataBlock.Add(key, value);
      added := added + [pair];
      NextIsGood(options, file, s, pending, last, owed, pair);
      NextStateIs(options, s, pending, owed, pair);
      assert FilterReady(numEntries);
    }

    /** The owed index entry, if there is one. */
    method IndexFor(key: Bytes) returns (ghost owed: Pair)
      requires indexBlock.Valid() && |indexBlock.buffer| < LIMIT && |lastKey| < LIMIT
      modifies this`pendingIndexEntry, indexBlock
      ensures indexBlock.Valid() && !pendingIndexEntry
              && owed == (InternalSeparator(options.comparator, lastKey, key), HandleBytes(pendingHandle))
      ensures pendingHandle == old(pendingHandle)
      ensures indexBlock.layout.pairs == old(indexBlock.layout.pairs) + if old(pendingIndexEntry) then [owed] else []
      ensures |owed.1| <= 20
    {
      hide BlockBuilder.Valid;
      SeparatorIsShort(options.comparator, lastKey, key);
      var sep := InternalSeparator(options.comparator, lastKey, key);
      var handleEncoding := EncodeHandle(pendingHandle);
      owed := (sep, handleEncoding);
      if pendingIndexEntry {
        indexBlock.Add(sep, handleEncoding);
        pendingIndexEntry := false;
      }
    }

    method AddToFilter(key: Bytes)
      requires FilterReady(|added|)
      modifies filterBlock
      ensures FilterReady(|added| + 1) && Groups() == old(Groups())
      ensures Waiting() == if options.policy.Some? then old(Waiting()) + [key] else old(Waiting())
    {
      OneKeyMore(perKey, |added|);
      OneKeyMore(perKey, |Waiting()|);
      if filterBlock != null { filterBlock.AddKey(key); }
    }

    method StartFilters()
      requires FilterReady(|added|) && perKey * |added| < LIMIT
               && (options.policy.Some? ==> |Groups()| <= |file| / BASE)
      modifies filterBlock
      ensures FilterReady(|added|)
      ensures (Groups(), Waiting()) == if options.policy.Some?
              then Started(old(Groups()), old(Waiting()), |file| / BASE) else (old(Groups()), old(Waiting()))
    {
      if filterBlock != null {
        StartedWaiting(Groups(), Waiting(), |file| / BASE);
        filterBlock.StartBlock(|file|);
      }
    }

    method Flush()
      requires Valid()
      modifies this, dataBlock, filterBlock
      ensures Valid() && added == old(added) && dataBlock.layout.pairs == []
              && indexBlock.layout.pairs == old(indexBlock.layout.pairs)
      ensures old(dataBlock.layout.pairs) == [] ==>
                file == old(file) && pendingIndexEntry == old(pendingIndexEntry)
                    && pendingHandle == old(pendingHandle) && lastKey == old(lastKey)
      ensures old(dataBlock.layout.pairs) != [] && !options.compress ==>
                var size := BlockSize(options.interval, old(dataBlock.layout.pairs));
                |file| == old(|file|) + size + TRAILER && pendingIndexEntry && pendingHandle.offset == |old(file)|
                    && pendingHandle.size == size
    {
      hide Good;
      hide Fits;
      hide BlockBuilder.Valid;
      hide FilterReady;
      hide Weight;
      hide BlockSpace;
      hide HasBlock;
      hide Started;
      hide LawfulOptions;
      dataBlock.EmptyIffNoPairs();
      if dataBlock.buffer == [] { return; }
      ghost var s, before := State(), file;
      RoomForBlock(options, file, s, pendingIndexEntry, lastKey, perKey);
      ghost var more;
      pendingHandle, more := WriteBlock(dataBlock);
      FlushedIsGood(options, before, s, lastKey, pendingHandle, more);
      pendingIndexEntry := true;
      blocks, handles := blocks + [s.current], handles + [pendingHandle];
      StartFilters();
    }

    lemma RoomForFilter(n: nat)
      requires FilterReady(n) && perKey * n < LIMIT && filterBlock != null
      ensures options.policy.Some? && filterBlock.Valid() && filterBlock.policy == InternalPolicy(options.policy.value)
      ensures |filterBlock.result| + |FilterOf(filterBlock.policy, filterBlock.pending)| < LIMIT
    {
    }

    /** The first part of Finish: the filter block. */
    method WriteFilterBlock() returns (h: Handle, ghost more: Bytes)
      requires FilterReady(|added|) && perKey * |added| < LIMIT && |file| < LIMIT && |Groups()| < LIMIT
      modifies this`file, filterBlock
      ensures file == old(file) + more && |more| < 8 * LIMIT && (filterBlock == null ==> more == [])
      ensures options.policy.Some? ==> HasFilter(options, file, h, ClosedGroups(old(Groups()), old(Waiting())))
    {
      h, more := Handle(0, 0), [];
      if filterBlock != null {
        ghost var groups := ClosedGroups(Groups(), Waiting());
        RoomForFilter(|added|);
        hide FilterReady;
        hide FilterBlock;
        hide FilterBlockBuilder.Valid;
        var contents := filterBlock.Finish();
        FilterBlockSize(filterBlock.policy, groups, contents);
        FilterStored(options, file, Handle(|file|, |contents|), groups, contents);
        h := WriteRawBlock(contents, NO_COMPRESSION);
        more := RawBlock(options.crc, contents, NO_COMPRESSION);
      }
    }

    method WriteMetaindexBlock(filterHandle: Handle) returns (h: Handle, ghost more: Bytes)
      requires LawfulOptions(options) && |file| < 16 * LIMIT && (filterBlock != null <==> options.policy.Some?)
      modifies this`file
      ensures file == old(file) + more && |more| < LIMIT && HasBlock(options, file, h, MetaPairs(options, filterHandle))
      ensures !options.compress && options.policy == None ==> |more| == BlockSize(options.interval, []) + TRAILER
    {
      var metaIndexBlock := new BlockBuilder(options.interval);
      hide BlockBuilder.Valid;
      if filterBlock != null {
        var handleEncoding := EncodeHandle(filterHandle);
        metaIndexBlock.Add(FILTER_PREFIX + options.policyName, handleEncoding);
      }
      assert metaIndexBlock.layout.pairs == MetaPairs(options, filterHandle);
      MetaIsSmall(options, filterHandle);
      hide MetaPairs;
      h, more := WriteBlock(metaIndexBlock);
    }

    /** The owed index entry, and the index block. */
    method WriteIndexBlock() returns (h: Handle, ghost more: Bytes)
      requires LawfulOptions(options) && indexBlock.Valid() && |file| < 32 * LIMIT && |lastKey| < LIMIT
      requires TotalSize(indexBlock.layout.pairs) < LIMIT
      requires BlockSpace(FinalIndex(options, indexBlock.layout.pairs, pendingIndexEntry, lastKey,
                                     pendingHandle)) < LIMIT
      modifies this`file, this`pendingIndexEntry, indexBlock
      ensures !pendingIndexEntry
      ensures file == old(file) + more && HasBlock(options, file, h,
                                                   old(FinalIndex(options, indexBlock.layout.pairs, pendingIndexEntry,
                                                         lastKey, pendingHandle)))
      ensures !options.compress ==>
                |more| == BlockSize(indexBlock.interval,
                                    old(FinalIndex(options, indexBlock.layout.pairs, pendingIndexEntry, lastKey,
                                                   pendingHandle))) + TRAILER
    {
      hide LawfulOptions;
      hide BlockBuilder.Valid;
      hide TotalSize;
      hide BlockSpace;
      hide HasBlock;
      indexBlock.SizeBound();
      if pendingIndexEntry {
        var succ := InternalSuccessor(options.comparator, lastKey);
        SuccessorIsShort(options.comparator, lastKey);
        var handleEncoding := EncodeHandle(pendingHandle);
        indexBlock.Add(succ, handleEncoding);
        pendingIndexEntry := false;
      }
      assert indexBlock.layout.pairs == old(FinalIndex(options, indexBlock.layout.pairs, pendingIndexEntry, lastKey,
                                                       pendingHandle));
      hide FinalIndex;
      h, more := WriteBlock(indexBlock);
    }

    /** The blocks after the data, and the footer. */
    method WriteTail() returns (ghost parts: (Bytes, Bytes, Bytes, Bytes), ghost at: (Handle, Handle, Handle))
      requires LawfulOptions(options) && dataBlock != indexBlock && indexBlock.Valid() && FilterReady(|added|)
      requires perKey * |added| < LIMIT && |file| < LIMIT && |Groups()| < LIMIT && |lastKey| < LIMIT
      requires TotalSize(indexBlock.layout.pairs) < LIMIT
      requires BlockSpace(FinalIndex(options, indexBlock.layout.pairs, pendingIndexEntry, lastKey,
                                     pendingHandle)) < LIMIT
      modifies this`file, this`pendingIndexEntry, indexBlock, filterBlock
      ensures file == old(file) + parts.0 + parts.1 + parts.2 + parts.3
      ensures options.policy.Some? ==> HasFilter(options, old(file) + parts.0, at.0,
                                                 ClosedGroups(old(Groups()), old(Waiting())))
      ensures HasBlock(options, old(file) + parts.0 + parts.1, at.1, MetaPairs(options, at.0))
      ensures HasBlock(options, old(file) + parts.0 + parts.1 + parts.2, at.2,
                       old(FinalIndex(options, indexBlock.layout.pairs, pendingIndexEntry, lastKey, pendingHandle)))
      ensures IsFooter(parts.3, at.1, at.2)
      ensures !options.compress && options.policy == None ==>
                |file| == old(|file|) + BlockSize(options.interval, []) + TRAILER + FOOTER + TRAILER
                          + BlockSize(indexBlock.interval, old(FinalIndex(options, indexBlock.layout.pairs,
                                pendingIndexEntry, lastKey, pendingHandle)))
    {
      hide BlockSize;
      hide BlockBuilder.Valid;
      hide FilterReady;
      hide LawfulOptions;
      hide BlockSpace;
      hide HasBlock;
      hide HasFilter;
      hide TotalSize;
      hide FinalIndex;
      hide MetaPairs;
      hide ClosedGroups;
      ghost var filter, meta, index;
      var filterHandle, metaindexHandle, indexHandle;
      HasFilterBlock(|added|);
      filterHandle, filter := WriteFilterBlock();
      metaindexHandle, meta := WriteMetaindexBlock(filterHandle);
      indexHandle, index := WriteIndexBlock();
      var footer := EncodeFooter(metaindexHandle, indexHandle);
      file := file + footer;
      parts, at := (filter, meta, index, footer), (filterHandle, metaindexHandle, indexHandle);
    }

    lemma HasFilterBlock(n: nat)
      requires FilterReady(n)
      ensures filterBlock != null <==> options.policy.Some?
    {
    }

    method Finish() returns (ghost t: TableContents)
      requires Valid()
      modifies this, dataBlock, indexBlock, filterBlock
      ensures closed && added == old(added) == t.added && IsTable(options, file, t)
      ensures !options.compress && options.policy == None && old(CutBySize()) ==> |file| == TableSize(options, added)
    {
      hide Valid;
      hide BlockSize;
      hide HandleBytes;
      hide InternalSuccessor;
      hide IsTable;
      hide CutOf;
      hide BlockCut;
      ghost var before := CutBySize();
      ghost var cut := LastBlock();
      LastOfAdded();
      ghost var index := FinalIndex(options, indexBlock.layout.pairs, pendingIndexEntry, lastKey, pendingHandle);
      assert index == cut.index + if cut.owed == None then []
                                  else [(InternalSuccessor(options.comparator, LastKey(added)), cut.owed.value)];
      t := FinishTail();
      SizeOfTable(options, added, cut, index);
    }

    /** The block being filled, if any, is written. */
    method LastBlock() returns (ghost cut: Cut)
      requires Valid()
      modifies this, dataBlock, filterBlock
      ensures Valid() && added == old(added) && dataBlock.layout.pairs == []
      ensures cut == Cut(|file|, [], indexBlock.layout.pairs, Owed())
      ensures !options.compress && old(CutBySize()) ==>
                cut == if CutOf(options, added).current == [] then CutOf(options, added)
                       else BlockCut(options, CutOf(options, added))
    {
      hide Valid;
      hide CutOf;
      hide BlockSize;
      hide HandleBytes;
      hide Varint;
      LastOfAdded();
      NothingOwed();
      HandleIs(|file|, BlockSize(options.interval, dataBlock.layout.pairs));
      Flush();
      cut := Cut(|file|, [], indexBlock.layout.pairs, Owed());
    }

    static lemma SizeOfTable(o: Options, pairs: seq<Pair>, cut: Cut, index: seq<Pair>)
      requires index == cut.index + if cut.owed == None then []
                                    else [(InternalSuccessor(o.comparator, LastKey(pairs)), cut.owed.value)]
      ensures cut == (if CutOf(o, pairs).current == [] then CutOf(o, pairs) else BlockCut(o, CutOf(o, pairs))) ==>
                TableSize(o, pairs) == cut.size + BlockSize(o.interval, []) + TRAILER + BlockSize(1, index) + TRAILER
                    + FOOTER
    {
      hide CutOf;
      hide BlockSize;
      hide InternalSuccessor;
      assert cut.owed == None ==> index == cut.index;
    }

    lemma NothingOwed()
      requires Valid()
      ensures dataBlock.layout.pairs != [] ==> !pendingIndexEntry
    {
    }

    lemma TailParts()
      requires Valid()
      ensures LawfulOptions(options) && dataBlock != indexBlock && indexBlock.Valid() && indexBlock.interval == 1
              && FilterReady(|added|)
      ensures Fits(added, perKey) && Good(options, file, State(), pendingIndexEntry, lastKey)
      ensures pendingIndexEntry ==> handles != [] && pendingHandle == handles[|handles| - 1]
    {
    }

    method FinishTail() returns (ghost t: TableContents)
      requires Valid() && dataBlock.layout.pairs == []
      modifies this`closed, this`file, this`pendingIndexEntry, indexBlock, filterBlock
      ensures closed && t.added == added && IsTable(options, file, t)
      ensures !options.compress && options.policy == None ==>
                |file| == old(|file|) + BlockSize(options.interval, []) + TRAILER + FOOTER + TRAILER
                          + BlockSize(1, old(FinalIndex(options, indexBlock.layout.pairs, pendingIndexEntry, lastKey,
                                                        pendingHandle)))
    {
      hide Valid;
      hide Ready;
      hide BlockSize;
      hide Good;
      hide Fits;
      hide BlockBuilder.Valid;
      hide LawfulOptions;
      hide FilterReady;
      hide BlockSpace;
      hide HasBlock;
      hide HasFilter;
      hide TotalSize;
      hide FinalIndex;
      hide ClosedGroups;
      hide MetaPairs;
      hide IsTable;
      hide IsFooter;
      TailParts();
      closed := true;
      ghost var s, pending, file0, key, h := State(), pendingIndexEntry, file, lastKey, pendingHandle;
      PendingHandles(options, file0, s, pending, key);
      RoomToFinish(options, file0, s, pending, key, h, perKey);
      HasFilterBlock(|added|);
      ghost var parts, at := WriteTail();
      t := FinalTable(options, s, pending, key, h, at.0, at.1, at.2);
      FinishedTable(options, file0, s, pending, key, h, parts.0, parts.1, parts.2, parts.3, t);
    }
  }
}
