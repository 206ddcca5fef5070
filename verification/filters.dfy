/** Filters of a table: one for every 2KB of file (table/filter_block.cc). */
module Filters {
  import opened InternalKeys
  import opened Coding
  import opened Blocks

  /** A FilterPolicy: create appends the filter of a list of keys. */
  datatype FilterPolicy = FilterPolicy(create: seq<Bytes> -> Bytes, mayMatch: (Bytes, Bytes) -> bool)

  ghost predicate NoFalseNegatives(p: FilterPolicy) {
    forall keys, k :: k in keys ==> p.mayMatch(k, p.create(keys))
  }

  const BASE_LG: Byte := 11
  const BASE := 2048  // kFilterBase

  // ---- layout ----

  /** No keys, no bytes. */
  function FilterOf(p: FilterPolicy, group: seq<Bytes>): Bytes { if group == [] then [] else p.create(group) }

  function FiltersOf(p: FilterPolicy, groups: seq<seq<Bytes>>): Bytes {
    if groups == [] then [] else FiltersOf(p, groups[..|groups| - 1]) + FilterOf(p, groups[|groups| - 1])
  }

  lemma SliceOfFront(front: Bytes, back: Bytes, a: nat, b: nat)
    requires a <= b <= |front|
    ensures (front + back)[a..b] == front[a..b]
  {
  }

  lemma {:induction false} FilterAt(p: FilterPolicy, groups: seq<seq<Bytes>>, i: nat)
    requires i < |groups|
    ensures var a, b, all := |FiltersOf(p, groups[..i])|, |FiltersOf(p, groups[..i + 1])|, FiltersOf(p, groups);
            a <= b <= |all| && all[a..b] == FilterOf(p, groups[i])
    decreases |groups|
  {
    hide FilterOf;
    var n := |groups| - 1;
    assert groups[..i + 1][..i] == groups[..i];
    if i < n {
      FilterAt(p, groups[..n], i);
      assert groups[..n][..i] == groups[..i] && groups[..n][..i + 1] == groups[..i + 1];
      var front, a, b := FiltersOf(p, groups[..n]), |FiltersOf(p, groups[..i])|, |FiltersOf(p, groups[..i + 1])|;
      assert FiltersOf(p, groups) == front + FilterOf(p, groups[n]);
      SliceOfFront(front, FilterOf(p, groups[n]), a, b);
    } else {
      assert groups[..i + 1] == groups;
    }
  }

  ghost predicate OffsetsMatch(p: FilterPolicy, groups: seq<seq<Bytes>>, offsets: seq<Word>) {
    |offsets| == |groups| && forall i :: 0 <= i < |groups| ==> offsets[i] == |FiltersOf(p, groups[..i])|
  }

  /** The block: the filters, where each begins, where that array begins, and the base. */
  ghost predicate FilterBlock(p: FilterPolicy, groups: seq<seq<Bytes>>, contents: Bytes) {
    exists offsets :: OffsetsMatch(p, groups, offsets) && Laid(p, groups, offsets, contents)
  }

  ghost predicate Laid(p: FilterPolicy, groups: seq<seq<Bytes>>, offsets: seq<Word>, contents: Bytes) {
    var filters := FiltersOf(p, groups);
    |filters| < LIMIT && contents == filters + Fixed32s(offsets) + Fixed32(|filters|) + [BASE_LG]
  }

  // ---- keys, flattened ----

  function Flat(keys: seq<Bytes>): Bytes { if keys == [] then [] else Flat(keys[..|keys| - 1]) + keys[|keys| - 1] }

  ghost predicate StartsMatch(keys: seq<Bytes>, starts: seq<nat>) {
    |starts| == |keys| && forall i :: 0 <= i < |keys| ==> starts[i] == |Flat(keys[..i])|
  }

  lemma {:induction false} KeyAt(keys: seq<Bytes>, i: nat)
    requires i < |keys|
    ensures var a, b := |Flat(keys[..i])|, |Flat(keys[..i + 1])|; a <= b <= |Flat(keys)| && Flat(keys)[a..b] == keys[i]
    decreases |keys|
  {
    var n := |keys| - 1;
    assert keys[..i + 1][..i] == keys[..i];
    if i < n {
      KeyAt(keys[..n], i);
      assert keys[..n][..i] == keys[..i] && keys[..n][..i + 1] == keys[..i + 1];
    } else {
      assert keys[..i + 1] == keys;
    }
  }

  lemma MoreKeys(keys: seq<Bytes>, starts: seq<nat>, key: Bytes)
    requires StartsMatch(keys, starts)
    ensures Flat(keys + [key]) == Flat(keys) + key && StartsMatch(keys + [key], starts + [|Flat(keys)|])
  {
    var keys' := keys + [key];
    assert keys'[..|keys|] == keys;
    forall i | 0 <= i < |keys| ensures keys'[..i] == keys[..i] {}
  }

  /** What StartBlock does to the groups: the keys so far form the next one, and filters
      without keys follow until the offset's own. */
  function Started(groups: seq<seq<Bytes>>, pending: seq<Bytes>, index: nat): (seq<seq<Bytes>>, seq<Bytes>)
    decreases index - |groups|
  {
    if index > |groups| then Started(groups + [pending], [], index) else (groups, pending)
  }

  class FilterBlockBuilder {
    const policy: FilterPolicy
    var keys: Bytes
    var start: seq<nat>
    var result: Bytes
    var filterOffsets: seq<Word>
    ghost var groups: seq<seq<Bytes>>  // the keys of each finished filter
    ghost var pending: seq<Bytes>      // the keys of the next one

    ghost predicate Valid()
      reads this
    {
      && keys == Flat(pending) && StartsMatch(pending, start)
      && result == FiltersOf(policy, groups) && OffsetsMatch(policy, groups, filterOffsets)
    }

    constructor (policy: FilterPolicy)
      ensures Valid() && this.policy == policy && groups == [] && pending == []
    {
      this.policy := policy;
      keys, start, result, filterOffsets, groups, pending := [], [], [], [], [], [];
    }

    method StartBlock(blockOffset: nat)
      requires Valid() && |groups| <= blockOffset / BASE && |result| + |FilterOf(policy, pending)| < LIMIT
      modifies this
      ensures Valid() && (groups, pending) == Started(old(groups), old(pending), blockOffset / BASE)
      ensures |result| <= old(|result|) + |FilterOf(policy, old(pending))|
      ensures |result| + |FilterOf(policy, pending)| <= old(|result|) + |FilterOf(policy, old(pending))|
    {
      var filterIndex := blockOffset / BASE;
      while filterIndex > |filterOffsets|
        invariant Valid() && |groups| <= filterIndex
        invariant Started(groups, pending, filterIndex) == Started(old(groups), old(pending), filterIndex)
        invariant |result| + |FilterOf(policy, pending)| == old(|result|) + |FilterOf(policy, old(pending))|
      {
        GenerateFilter();
      }
    }

    method AddKey(key: Bytes)
      requires Valid()
      modifies this`keys, this`start, this`pending
      ensures Valid() && pending == old(pending) + [key]
    {
      MoreKeys(pending, start, key);
      start := start + [|keys|];
      keys := keys + key;
      pending := pending + [key];
    }

    method GenerateFilter()
      requires Valid() && |result| < LIMIT
      modifies this
      ensures Valid() && groups == old(groups) + [old(pending)] && pending == []
      ensures result == old(result) + FilterOf(policy, old(pending))
    {
      NextGroup(policy, groups, pending, filterOffsets);
      var numKeys := |start|;
      if numKeys == 0 {
        filterOffsets := filterOffsets + [|result|];
      } else {
        start := start + [|keys|];
        var tmpKeys := SplitKeys(numKeys);
        filterOffsets := filterOffsets + [|result|];
        result := result + policy.create(tmpKeys);
        keys, start := [], [];
      }
      groups, pending := groups + [pending], [];
    }

    /** The list of keys, from the flattened structure. */
    method SplitKeys(numKeys: nat) returns (tmpKeys: seq<Bytes>)
      requires |start| == numKeys + 1 && StartsMatch(pending, start[..numKeys]) && keys == Flat(pending)
               && start[numKeys] == |keys|
      ensures tmpKeys == pending
    {
      tmpKeys := [];
      for i := 0 to numKeys
        invariant tmpKeys == pending[..i]
      {
        KeyAt(pending, i);
        assert i + 1 == numKeys ==> pending[..i + 1] == pending;
        assert start[i] == start[..numKeys][i];
        assert i + 1 < numKeys ==> start[i + 1] == start[..numKeys][i + 1];
        tmpKeys := tmpKeys + [keys[start[i]..start[i + 1]]];
      }
    }

    method AppendWords(words: seq<Word>)
      modifies this`result
      ensures result == old(result) + Fixed32s(words)
    {
      for i := 0 to |words|
        invariant result == old(result) + Fixed32s(words[..i])
      {
        assert words[..i + 1][..i] == words[..i];
        result := result + Fixed32(words[i]);
      }
      assert words[..|words|] == words;
    }

    method Finish() returns (contents: Bytes)
      requires Valid() && |result| + |FilterOf(policy, pending)| < LIMIT
      modifies this
      ensures FilterBlock(policy, if old(pending) == [] then old(groups) else old(groups) + [old(pending)], contents)
    {
      if start != [] { GenerateFilter(); }
      ghost var filters := groups;
      var arrayOffset, offsets := |result|, filterOffsets;
      AppendWords(offsets);
      result := result + Fixed32(arrayOffset);
      result := result + [BASE_LG];
      contents := result;
      assert Laid(policy, filters, offsets, contents);
    }
  }

  lemma NextGroup(p: FilterPolicy, groups: seq<seq<Bytes>>, group: seq<Bytes>, offsets: seq<Word>)
    requires OffsetsMatch(p, groups, offsets) && |FiltersOf(p, groups)| < LIMIT
    ensures FiltersOf(p, groups + [group]) == FiltersOf(p, groups) + FilterOf(p, group)
    ensures OffsetsMatch(p, groups + [group], offsets + [|FiltersOf(p, groups)|])
  {
    var groups' := groups + [group];
    assert groups'[..|groups|] == groups;
    forall i | 0 <= i < |groups| ensures groups'[..i] == groups[..i] {}
  }

  // ---- reading ----

  /** FilterBlockReader: num is 0 when the contents make no sense. */
  datatype Reader = Reader(policy: FilterPolicy, data: Bytes, offset: nat, num: nat, baseLg: nat)

  /** The reader of the block with these groups. */
  ghost predicate Reads(r: Reader, groups: seq<seq<Bytes>>) {
    && FilterBlock(r.policy, groups, r.data) && r.offset == |FiltersOf(r.policy, groups)|
    && r.num == |groups| && r.baseLg == BASE_LG
  }

  ghost predicate ReaderOk(r: Reader) { r.num > 0 ==> r.offset + 4 * r.num + 5 <= |r.data| }

  /** x >> n */
  function ShiftRight(x: nat, n: nat): nat { if n == 0 then x else ShiftRight(x, n - 1) / 2 }

  lemma ShiftByBase(x: nat)
    ensures ShiftRight(x, BASE_LG) == x / BASE
  {
    assert ShiftRight(x, 1) == x / 2;
    assert ShiftRight(x, 2) == x / 4;
    assert ShiftRight(x, 3) == x / 8;
    assert ShiftRight(x, 4) == x / 16;
    assert ShiftRight(x, 5) == x / 32;
    assert ShiftRight(x, 6) == x / 64;
    assert ShiftRight(x, 7) == x / 128;
    assert ShiftRight(x, 8) == x / 256;
    assert ShiftRight(x, 9) == x / 512;
    assert ShiftRight(x, 10) == x / 1024;
  }

  method OpenFilter(policy: FilterPolicy, contents: Bytes) returns (r: Reader)
    ensures ReaderOk(r) && forall groups :: FilterBlock(policy, groups, contents) ==>
              Reads(r, groups) && r.policy == policy
  {
    var n := |contents|;
    if n < 5 {
      r := Reader(policy, contents, 0, 0, 0);
    } else {
      var lastWord := DecodeFixed32(contents[n - 5..]);
      r := if lastWord > n - 5 then Reader(policy, contents, 0, 0, contents[n - 1])
           else Reader(policy, contents, lastWord, (n - 5 - lastWord) / 4, contents[n - 1]);
    }
    forall groups | FilterBlock(policy, groups, contents)
      ensures Reads(r, groups) && r.policy == policy
    {
      var filters := FiltersOf(policy, groups);
      var offsets :| OffsetsMatch(policy, groups, offsets) && Laid(policy, groups, offsets, contents);
      assert contents[n - 5..][..4] == Fixed32(|filters|);
      Fixed32RoundTrip(|filters|);
    }
  }

  /** Filter i decides; where there is no filter, anything may match. */
  function MayMatch(p: FilterPolicy, groups: seq<seq<Bytes>>, i: nat, key: Bytes): bool {
    i < |groups| ==> p.mayMatch(key, FilterOf(p, groups[i]))
  }

  function WordAt(data: Bytes, at: nat): Word
    requires at + 4 <= |data|
  {
    DecodeFixed32(data[at..at + 4])
  }

  function SliceSays(r: Reader, start: Word, limit: Word, key: Bytes): bool
    requires r.offset <= |r.data|
  {
    if start <= limit && limit <= r.offset then r.policy.mayMatch(key, r.data[start..limit])
    else start != limit
  }

  /** What filter number `index` says; anything unexpected is a potential match. */
  function FilterSays(r: Reader, index: nat, key: Bytes): bool
    requires ReaderOk(r)
  {
    if index < r.num then
      SliceSays(r, WordAt(r.data, r.offset + 4 * index), WordAt(r.data, r.offset + 4 * index + 4), key)
    else true
  }

  /** FilterBlockReader::KeyMayMatch */
  function KeyMayMatch(r: Reader, blockOffset: nat, key: Bytes): bool
    requires ReaderOk(r)
  {
    FilterSays(r, ShiftRight(blockOffset, r.baseLg), key)
  }

  /** Word i of the offset array; the word behind it is where the array begins. */
  lemma OffsetWord(r: Reader, groups: seq<seq<Bytes>>, i: nat)
    requires Reads(r, groups) && i <= |groups|
    ensures r.offset + 4 * i + 4 <= |r.data|
    ensures WordAt(r.data, r.offset + 4 * i) == |FiltersOf(r.policy, groups[..i])|
  {
    hide FiltersOf;
    var data, at := r.data, r.offset + 4 * i;
    var offsets :| OffsetsMatch(r.policy, groups, offsets) && Laid(r.policy, groups, offsets, data);
    assert groups[..|groups|] == groups;
    var end: Word := r.offset;
    var ends := offsets + [end];
    assert ends[..|offsets|] == offsets;
    var tail := Fixed32s(ends);
    assert data == FiltersOf(r.policy, groups) + tail + [BASE_LG];
    Fixed32sAt(ends, i);
    assert data[at..at + 4] == tail[4 * i..4 * i + 4];
    Fixed32RoundTrip(ends[i]);
  }

  lemma FiltersInBlock(r: Reader, groups: seq<seq<Bytes>>, a: nat, b: nat)
    requires Reads(r, groups) && a <= b <= r.offset
    ensures r.offset <= |r.data| && r.data[a..b] == FiltersOf(r.policy, groups)[a..b]
  {
    hide FiltersOf;
    var offsets :| OffsetsMatch(r.policy, groups, offsets) && Laid(r.policy, groups, offsets, r.data);
    assert r.data[..r.offset] == FiltersOf(r.policy, groups);
  }

  lemma SliceDecides(r: Reader, a: Word, b: Word, key: Bytes)
    requires a <= b <= r.offset <= |r.data|
    ensures SliceSays(r, a, b, key) == r.policy.mayMatch(key, r.data[a..b])
  {
  }

  lemma FilterDecides(r: Reader, groups: seq<seq<Bytes>>, i: nat, key: Bytes)
    requires Reads(r, groups) && ReaderOk(r)
    ensures FilterSays(r, i, key) == MayMatch(r.policy, groups, i, key)
  {
    hide FilterBlock;
    hide FiltersOf;
    hide FilterOf;
    hide WordAt;
    hide SliceSays;
    if i < |groups| {
      OffsetWord(r, groups, i);
      OffsetWord(r, groups, i + 1);
      FilterAt(r.policy, groups, i);
      var a, b := |FiltersOf(r.policy, groups[..i])|, |FiltersOf(r.policy, groups[..i + 1])|;
      FiltersInBlock(r, groups, a, b);
      SliceDecides(r, a, b, key);
    }
  }

  /** The filter of the block's offset decides. */
  lemma ReadsFilter(r: Reader, groups: seq<seq<Bytes>>, blockOffset: nat, key: Bytes)
    requires Reads(r, groups) && ReaderOk(r)
    ensures KeyMayMatch(r, blockOffset, key) == MayMatch(r.policy, groups, blockOffset / BASE, key)
  {
    ShiftByBase(blockOffset);
    FilterDecides(r, groups, blockOffset / BASE, key);
    hide ShiftRight;
    hide FilterSays;
  }

  /** No key of a group is missed by its filter. */
  lemma AddedKeyMatches(r: Reader, groups: seq<seq<Bytes>>, blockOffset: nat, key: Bytes)
    requires Reads(r, groups) && ReaderOk(r) && NoFalseNegatives(r.policy)
    requires blockOffset / BASE < |groups| && key in groups[blockOffset / BASE]
    ensures KeyMayMatch(r, blockOffset, key)
  {
    ReadsFilter(r, groups, blockOffset, key);
  }
}
