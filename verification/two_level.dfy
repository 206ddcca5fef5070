/** TwoLevelIterator (table/two_level_iterator.cc): one cursor over the blocks an index
    points to, one after the other, for any mix of seeks, forward and backward moves. */
module TwoLevel {
  import opened InternalKeys
  import opened Lists

  /** What the block function makes of a handle: the keys to iterate over, and whether the
      block could be read. */
  datatype Block<K> = Block(keys: seq<K>, ok: bool)

  /** An iterator over a block; |keys| is the invalid position. */
  datatype Cursor<K> = Cursor(keys: seq<K>, pos: nat, ok: bool)

  /** Seek: the first key that is not less than the target. */
  function SeekPos<K>(keys: seq<K>, less: (K, K) -> bool, target: K): (p: nat)
    ensures p <= |keys| && forall i :: 0 <= i < p ==> less(keys[i], target)
    ensures p < |keys| ==> !less(keys[p], target)
  {
    if keys == [] || !less(keys[0], target) then 0 else 1 + SeekPos(keys[1..], less, target)
  }

  lemma SeekPosIs<K>(keys: seq<K>, less: (K, K) -> bool, target: K, p: nat)
    requires p <= |keys| && (forall i :: 0 <= i < p ==> less(keys[i], target))
    requires p < |keys| ==> !less(keys[p], target)
    ensures SeekPos(keys, less, target) == p
  {
  }

  function LastPos(n: nat): nat { if n == 0 then 0 else n - 1 }

  function PrevPos(p: nat, n: nat): nat { if p == 0 then n else p - 1 }

  /** An index key separates its block from those behind it, as far as the target goes. */
  ghost predicate Separated<K(!new)>(seps: seq<K>, blocks: seq<seq<K>>, less: (K, K) -> bool, target: K)
    requires |seps| == |blocks|
  {
    && (forall b, i :: 0 <= b < |blocks| && 0 <= i < |blocks[b]| && less(seps[b], target) ==>
        less(blocks[b][i], target))
    && forall b, c, i :: 0 <= b < c < |blocks| && 0 <= i < |blocks[c]| && !less(seps[b], target) ==>
         !less(blocks[c][i], target)
  }

  /** Seeking in the index and then in the block finds the position in the whole. */
  lemma SeekBoth<K(!new)>(seps: seq<K>, blocks: seq<seq<K>>, less: (K, K) -> bool, target: K)
    requires |seps| == |blocks| && Separated(seps, blocks, less, target)
    ensures var b := SeekPos(seps, less, target);
            SeekPos(Concat(blocks), less, target)
            == if b == |blocks| then |Concat(blocks)| else StartOf(blocks, b) + SeekPos(blocks[b], less, target)
  {
    hide Concat;
    hide StartOf;
    var b, all := SeekPos(seps, less, target), Concat(blocks);
    var p := if b == |blocks| then |all| else StartOf(blocks, b) + SeekPos(blocks[b], less, target);
    if b < |blocks| {
      StartNext(blocks, b);
      StartAtMost(blocks, b + 1);
    }
    forall q | 0 <= q < |all| ensures q < p ==> less(all[q], target)
      ensures q == p ==> !less(all[q], target)
    {
      var c, i := PartOf(blocks, q);
      ItemAt(blocks, c, i);
      if c < b { } else if c == b { }
      else { StartBefore(blocks, b + 1, c); }
      if c < b { StartBefore(blocks, c + 1, b); StartNext(blocks, c); }
    }
    SeekPosIs(all, less, target, p);
  }

  class TwoLevelIterator<K(!new), H(==)> {
    const index: seq<(K, H)>           // what index_iter_ runs over
    const blockFunction: H -> Block<K>
    const less: (K, K) -> bool
    var indexPos: nat                  // of index_iter_
    var dataIter: Option<Cursor<K>>    // data_iter_, None if it is null
    var dataBlockHandle: Option<H>
    var savedOk: bool                  // status_
    ghost var seen: set<H>           // the handles whose block was read

    ghost function Blocks(): (r: seq<seq<K>>)
      ensures |r| == |index|
    { seq(|index|, b requires 0 <= b < |index| => blockFunction(index[b].1).keys) }

    ghost function Separators(): (r: seq<K>)
      ensures |r| == |index|
    { seq(|index|, b requires 0 <= b < |index| => index[b].0) }

    ghost function All(): seq<K> { Concat(Blocks()) }

    predicate IsValid()
      reads this
    { dataIter.Some? && dataIter.value.pos < |dataIter.value.keys| }

    /** status(), without the index's own. */
    predicate StatusOk()
      reads this
    { savedOk && (dataIter.Some? ==> dataIter.value.ok) }

    /** The block at hand is the one the index is at, and no failure is forgotten. */
    ghost predicate Consistent()
      reads this
    {
      && indexPos <= |index|
      && (dataIter.Some? ==>
            && indexPos < |index| && dataBlockHandle == Some(index[indexPos].1) && index[indexPos].1 in seen
            && dataIter.value == Cursor(Blocks()[indexPos], dataIter.value.pos, blockFunction(index[indexPos].1).ok)
            && dataIter.value.pos <= |dataIter.value.keys|)
      && (dataIter.None? ==> indexPos == |index|)
      && (StatusOk() <==> forall h :: h in seen ==> blockFunction(h).ok)
    }

    ghost predicate Valid()
      reads this
    { Consistent() && (dataIter.Some? ==> IsValid()) }

    /** The place in the whole; |All()| is the invalid one. */
    ghost function Position(): nat
      reads this
      requires Consistent()
    { if IsValid() then StartOf(Blocks(), indexPos) + dataIter.value.pos else |All()| }

    constructor (index: seq<(K, H)>, blockFunction: H -> Block<K>, less: (K, K) -> bool)
      ensures Valid() && this.index == index && this.blockFunction == blockFunction && this.less == less
      ensures !IsValid() && StatusOk() && seen == {}
    {
      this.index, this.blockFunction, this.less := index, blockFunction, less;
      indexPos, dataIter, dataBlockHandle, savedOk, seen := |index|, None, None, true, {};
    }

    method SetDataIterator(d: Option<Cursor<K>>)
      modifies this`dataIter, this`savedOk
      ensures dataIter == d && savedOk == old(StatusOk())
    {
      if dataIter.Some? && !dataIter.value.ok { savedOk := false; }
      dataIter := d;
    }

    /** Whatever the index has moved to: its block, at some position, or nothing. */
    method InitDataBlock()
      requires indexPos <= |index|
      requires dataIter.Some? ==> dataBlockHandle.Some? && dataBlockHandle.value in seen
                                  && dataIter.value.keys == blockFunction(dataBlockHandle.value).keys
                                  && dataIter.value.ok == blockFunction(dataBlockHandle.value).ok
                                  && dataIter.value.pos <= |dataIter.value.keys|
      requires StatusOk() <==> forall h :: h in seen ==> blockFunction(h).ok
      modifies this`dataIter, this`dataBlockHandle, this`savedOk, this`seen
      ensures Consistent()
      ensures seen == old(seen) + if indexPos < |index| then {index[indexPos].1} else {}
    {
      if indexPos == |index| {
        SetDataIterator(None);
      } else {
        var handle := index[indexPos].1;
        if dataIter.Some? && dataBlockHandle == Some(handle) {
        } else {
          var block := blockFunction(handle);
          dataBlockHandle := Some(handle);
          SetDataIterator(Some(Cursor(block.keys, |block.keys|, block.ok)));
          seen := seen + {handle};
        }
      }
    }

    /** Forward to the next key there is; every block on the way is read. */
    method SkipEmptyDataBlocksForward()
      requires Consistent()
      modifies this`indexPos, this`dataIter, this`dataBlockHandle, this`savedOk, this`seen
      ensures Valid() && old(seen) <= seen && old(indexPos) <= indexPos
      ensures Position() == if old(dataIter).None? then |All()|
                            else StartOf(Blocks(), old(indexPos)) + old(dataIter).value.pos
      ensures forall b :: old(indexPos) < b <= indexPos && b < |index| ==> index[b].1 in seen
    {
      hide Concat;
      hide StartOf;
      ghost var goal := if dataIter.None? then |All()| else StartOf(Blocks(), indexPos) + dataIter.value.pos;
      while dataIter.None? || !IsValid()
        invariant Consistent() && old(seen) <= seen && old(indexPos) <= indexPos
        invariant goal == if dataIter.None? then |All()| else StartOf(Blocks(), indexPos) + dataIter.value.pos
        invariant forall b :: old(indexPos) < b <= indexPos && b < |index| ==> index[b].1 in seen
        decreases |index| - indexPos, if dataIter.Some? then 1 else 0
      {
        if indexPos == |index| {
          SetDataIterator(None);
          return;
        }
        StartNext(Blocks(), indexPos);
        indexPos := indexPos + 1;
        InitDataBlock();
        if dataIter.Some? { dataIter := Some(dataIter.value.(pos := 0)); }
        else { StartOfEnd(Blocks()); }
      }
    }

    /** Backward to the previous key there is. */
    method SkipEmptyDataBlocksBackward()
      requires Consistent()
      modifies this`indexPos, this`dataIter, this`dataBlockHandle, this`savedOk, this`seen
      ensures Valid() && old(seen) <= seen
      ensures Position() == if old(dataIter).None? then |All()| else if old(IsValid()) then old(Position())
                            else PrevPos(StartOf(Blocks(), old(indexPos)), |All()|)
    {
      hide Concat;
      hide StartOf;
      StartOfEnd(Blocks());
      ghost var goal := if dataIter.None? then |All()| else if IsValid() then Position()
                  else PrevPos(StartOf(Blocks(), indexPos), |All()|);
      while dataIter.None? || !IsValid()
        invariant Consistent() && old(seen) <= seen
        invariant goal == if dataIter.None? then |All()| else if IsValid() then Position()
                    else PrevPos(StartOf(Blocks(), indexPos), |All()|)
        decreases if dataIter.None? then 0 else 1 + indexPos
      {
        if indexPos == |index| {
          SetDataIterator(None);
          return;
        }
        ghost var from := indexPos;
        indexPos := PrevPos(indexPos, |index|);
        InitDataBlock();
        if dataIter.Some? {
          StartNext(Blocks(), indexPos);
          dataIter := Some(dataIter.value.(pos := LastPos(|dataIter.value.keys|)));
        }
      }
    }

    method Seek(target: K)
      requires Valid() && Separated(Separators(), Blocks(), less, target)
      modifies this
      ensures Valid() && Position() == SeekPos(All(), less, target)
    {
      hide Separated;
      hide Concat;
      hide StartOf;
      hide SeekPos;
      SeekBoth(Separators(), Blocks(), less, target);
      indexPos := SeekIndex(target);
      InitDataBlock();
      if dataIter.Some? { dataIter := Some(dataIter.value.(pos := SeekPos(dataIter.value.keys, less, target))); }
      SkipEmptyDataBlocksForward();
    }

    method SeekIndex(target: K) returns (p: nat)
      ensures p == SeekPos(Separators(), less, target)
    {
      p := 0;
      while p < |index| && less(index[p].0, target)
        invariant p <= |index| && forall i :: 0 <= i < p ==> less(index[i].0, target)
      {
        p := p + 1;
      }
      SeekPosIs(Separators(), less, target, p);
    }

    method SeekToFirst()
      requires Valid()
      modifies this
      ensures Valid() && Position() == 0
      ensures forall b :: 0 <= b <= indexPos && b < |index| ==> index[b].1 in seen
    {
      indexPos := 0;
      InitDataBlock();
      if dataIter.Some? { dataIter := Some(dataIter.value.(pos := 0)); }
      SkipEmptyDataBlocksForward();
    }

    method SeekToLast()
      requires Valid()
      modifies this
      ensures Valid() && Position() == PrevPos(|All()|, |All()|)
    {
      indexPos := LastPos(|index|);
      InitDataBlock();
      if dataIter.Some? {
        StartNext(Blocks(), indexPos);
        StartOfEnd(Blocks());
        dataIter := Some(dataIter.value.(pos := LastPos(|dataIter.value.keys|)));
      }
      SkipEmptyDataBlocksBackward();
    }

    method Next()
      requires Valid() && IsValid()
      modifies this
      ensures Valid() && Position() == old(Position()) + 1
      ensures old(seen) <= seen && old(indexPos) <= indexPos
      ensures forall b :: old(indexPos) < b <= indexPos && b < |index| ==> index[b].1 in seen
    {
      dataIter := Some(dataIter.value.(pos := dataIter.value.pos + 1));
      SkipEmptyDataBlocksForward();
    }

    method Prev()
      requires Valid() && IsValid()
      modifies this
      ensures Valid() && Position() == PrevPos(old(Position()), |All()|)
    {
      dataIter := Some(dataIter.value.(pos := PrevPos(dataIter.value.pos, |dataIter.value.keys|)));
      SkipEmptyDataBlocksBackward();
    }

    method Key() returns (k: K)
      requires Valid() && IsValid()
      ensures Position() < |All()| && k == All()[Position()]
    {
      ItemAt(Blocks(), indexPos, dataIter.value.pos);
      k := dataIter.value.keys[dataIter.value.pos];
    }

    /** A full scan yields the whole, and if status() is fine at its end no block failed. */
    method Scan() returns (keys: seq<K>)
      requires Valid()
      modifies this
      ensures Valid() && keys == All()
      ensures StatusOk() ==> forall b :: 0 <= b < |index| ==> blockFunction(index[b].1).ok
    {
      SeekToFirst();
      keys := [];
      while IsValid()
        invariant Valid() && |keys| == Position() <= |All()| && keys == All()[..|keys|]
        invariant forall b :: 0 <= b <= indexPos && b < |index| ==> index[b].1 in seen
        decreases |All()| - Position()
      {
        var k := Key();
        ItemAt(Blocks(), indexPos, dataIter.value.pos);
        assert All()[..|keys| + 1] == All()[..|keys|] + [k];
        keys := keys + [k];
        Next();
      }
      assert All()[..|All()|] == All();
    }
  }
}
