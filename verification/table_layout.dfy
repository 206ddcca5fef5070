/** What a table file holds while it is being built: data blocks one after the other,
    one index entry for each, and filters by file offset. */
module TableLayout {
  import opened InternalKeys
  import opened Lists
  import opened Coding
  import opened Blocks
  import opened BlockIteration
  import opened KeyOrder
  import opened Filters
  import opened TableFormat

  /** The parts of Options a table depends on; interval is block_restart_interval. */
  datatype Options = Options(comparator: Comparator, policy: Option<FilterPolicy>, policyName: Bytes,
                             interval: nat, blockSize: nat, compress: bool, crc: Crc, codec: Codec)

  /** InternalFilterPolicy: filters are about user keys. */
  function UserParts(keys: seq<Bytes>): (r: seq<Bytes>)
    ensures |r| == |keys|
  {
    seq(|keys|, i requires 0 <= i < |keys| => UserPart(keys[i]))
  }

  function InternalPolicy(p: FilterPolicy): FilterPolicy {
    FilterPolicy((keys: seq<Bytes>) => p.create(UserParts(keys)), (key: Bytes, filter: Bytes) =>
                 p.mayMatch(UserPart(key), filter))
  }

  /** A key is found by the filter of any list with a key of the same user. */
  lemma SameUserMatches(p: FilterPolicy, keys: seq<Bytes>, k: Bytes, key: Bytes)
    requires NoFalseNegatives(p) && key in keys && UserPart(key) == UserPart(k)
    ensures InternalPolicy(p).mayMatch(k, InternalPolicy(p).create(keys))
  {
    var i :| 0 <= i < |keys| && keys[i] == key;
    assert UserParts(keys)[i] == UserPart(k);
    assert UserPart(k) in UserParts(keys);
  }

  // ---- data blocks ----

  ghost predicate IsBlock(contents: Bytes, pairs: seq<Pair>) {
    exists l, data, restarts :: Finished(contents, l, data, restarts) && l.pairs == pairs
  }

  /** At this handle the file has a block with these pairs. */
  ghost predicate HasBlock(o: Options, file: Bytes, h: Handle, pairs: seq<Pair>) {
    exists contents :: Stored(o.crc, o.codec, file, h, contents) && IsBlock(contents, pairs)
  }

  ghost predicate HasBlocks(o: Options, file: Bytes, blocks: seq<seq<Pair>>, handles: seq<Handle>) {
    |handles| == |blocks| && forall b :: 0 <= b < |blocks| ==>
          blocks[b] != [] && HasBlock(o, file, handles[b], blocks[b])
  }

  lemma BlockStays(o: Options, file: Bytes, more: Bytes, h: Handle, pairs: seq<Pair>)
    requires HasBlock(o, file, h, pairs)
    ensures HasBlock(o, file + more, h, pairs)
  {
    var contents :| Stored(o.crc, o.codec, file, h, contents) && IsBlock(contents, pairs);
    StaysStored(o.crc, o.codec, file, more, h, contents);
  }

  lemma BlocksStay(o: Options, file: Bytes, more: Bytes, blocks: seq<seq<Pair>>, handles: seq<Handle>)
    requires HasBlocks(o, file, blocks, handles)
    ensures HasBlocks(o, file + more, blocks, handles)
  {
    forall b | 0 <= b < |blocks| ensures HasBlock(o, file + more, handles[b], blocks[b]) {
      BlockStays(o, file, more, handles[b], blocks[b]);
    }
  }

  lemma OneBlockMore(o: Options, file: Bytes, more: Bytes, blocks: seq<seq<Pair>>, handles: seq<Handle>,
                     pairs: seq<Pair>, h: Handle)
    requires HasBlocks(o, file, blocks, handles) && pairs != [] && HasBlock(o, file + more, h, pairs)
    ensures HasBlocks(o, file + more, blocks + [pairs], handles + [h])
  {
    hide HasBlock;
    BlocksStay(o, file, more, blocks, handles);
  }

  // ---- sizes ----

  /** What TableBuilder has done with the pairs added to it, when it does not compress: the
      bytes written, the block being filled, the index, and the handle of the last block
      while its index entry is owed. */
  datatype Cut = Cut(size: nat, current: seq<Pair>, index: seq<Pair>, owed: Option<Bytes>)

  /** The block being filled is written. */
  function BlockCut(o: Options, c: Cut): Cut {
    var size := BlockSize(o.interval, c.current);
    Cut(c.size + size + TRAILER, [], c.index, Some(Varint(c.size) + Varint(size)))
  }

  function CutNext(o: Options, c: Cut, last: Bytes, pair: Pair): Cut {
    var index := if c.owed == None then c.index
                 else c.index + [(InternalSeparator(o.comparator, last, pair.0), c.owed.value)];
    var next := Cut(c.size, c.current + [pair], index, None);
    if BlockSize(o.interval, next.current) >= o.blockSize then BlockCut(o, next) else next
  }

  function CutOf(o: Options, pairs: seq<Pair>): Cut {
    if pairs == [] then Cut(0, [], [], None)
    else var n := |pairs| - 1; CutNext(o, CutOf(o, pairs[..n]), LastKey(pairs[..n]), pairs[n])
  }

  lemma CutMore(o: Options, pairs: seq<Pair>, pair: Pair)
    ensures CutOf(o, pairs + [pair]) == CutNext(o, CutOf(o, pairs), LastKey(pairs), pair)
  {
    assert (pairs + [pair])[..|pairs|] == pairs;
  }

  /** TableBuilder::FileSize while pairs are being added. */
  function SizeSoFar(o: Options, pairs: seq<Pair>): nat { CutOf(o, pairs).size }

  /** The size of the finished table, without a filter. */
  function TableSize(o: Options, pairs: seq<Pair>): nat {
    var c := CutOf(o, pairs);
    var data := if c.current == [] then c else BlockCut(o, c);
    var index := if data.owed == None then data.index
                 else data.index + [(InternalSuccessor(o.comparator, LastKey(pairs)), data.owed.value)];
    data.size + BlockSize(o.interval, []) + TRAILER + BlockSize(1, index) + TRAILER + FOOTER
  }

  // ---- index entries ----

  function First(pairs: seq<Pair>): Bytes
    requires pairs != []
  { pairs[0].0 }

  /** The first key behind block b, if there is one yet. */
  function KeyBehind(blocks: seq<seq<Pair>>, current: seq<Pair>, b: nat): Option<Bytes>
    requires b < |blocks|
  {
    if b + 1 < |blocks| then (if blocks[b + 1] == [] then None else Some(First(blocks[b + 1])))
    else if current == [] then None else Some(First(current))
  }

  /** The index key of a block: not before its last key; before the next key, with no
      key of the same user as the next one between. */
  ghost predicate Separates(c: Comparator, last: Bytes, sep: Bytes, next: Option<Bytes>) {
    && !InternalLess(c, sep, last)
    && (next.Some? ==>
          InternalLess(c, sep, next.value)
          && forall k :: InternalLess(c, last, k) && !InternalLess(c, sep, k) ==> UserPart(k) != UserPart(next.value))
  }

  ghost predicate Indexed(c: Comparator, blocks: seq<seq<Pair>>, handles: seq<Handle>, current: seq<Pair>,
                          index: seq<Pair>, b: nat)
    requires b < |index| <= |blocks| == |handles|
  {
    && index[b].1 == HandleBytes(handles[b])
    && Separates(c, LastKey(blocks[b]), index[b].0, KeyBehind(blocks, current, b))
  }

  ghost predicate IndexOk(c: Comparator, blocks: seq<seq<Pair>>, handles: seq<Handle>, current: seq<Pair>,
                          index: seq<Pair>) {
    |index| <= |blocks| == |handles| && forall b :: 0 <= b < |index| ==> Indexed(c, blocks, handles, current, index, b)
  }

  // ---- filters ----

  /** Every key of a block is in the group of the block's offset, or waits for it. */
  ghost predicate InFilter(block: seq<Pair>, h: Handle, groups: seq<seq<Bytes>>, pending: seq<Bytes>) {
    var g := h.offset / BASE;
    g <= |groups| && forall p :: p in block ==> p.0 in (if g < |groups| then groups[g] else pending)
  }

  ghost predicate Filtered(blocks: seq<seq<Pair>>, handles: seq<Handle>, groups: seq<seq<Bytes>>, pending: seq<Bytes>) {
    |handles| == |blocks| && forall b :: 0 <= b < |blocks| ==> InFilter(blocks[b], handles[b], groups, pending)
  }

  /** Starting later groups keeps every key in its group. */
  lemma {:induction false} StartedKeeps(block: seq<Pair>, h: Handle, groups: seq<seq<Bytes>>, pending: seq<Bytes>,
                                        index: nat)
    requires InFilter(block, h, groups, pending) && |groups| <= index
    ensures var r := Started(groups, pending, index); |r.0| == index && InFilter(block, h, r.0, r.1)
    decreases index - |groups|
  {
    if index > |groups| {
      assert InFilter(block, h, groups + [pending], []);
      StartedKeeps(block, h, groups + [pending], [], index);
    }
  }

  lemma KeyWaits(block: seq<Pair>, h: Handle, groups: seq<seq<Bytes>>, pending: seq<Bytes>, key: Bytes)
    requires InFilter(block, h, groups, pending)
    ensures InFilter(block, h, groups, pending + [key])
  {
  }
}
