/** Reading a block: Block and Block::Iter of table/block.cc, for blocks a builder made. */
module BlockIteration {
  import opened InternalKeys
  import opened Coding
  import opened Blocks

  /** The contents a builder returns for this layout. */
  ghost predicate Finished(contents: Bytes, l: Layout, data: Bytes, restarts: seq<Word>) {
    && Describes(l, data, restarts) && |restarts| < LIMIT && |contents| < LIMIT
    && contents == data + Fixed32s(restarts) + Fixed32(|restarts|)
  }

  lemma RestartBytes(contents: Bytes, l: Layout, data: Bytes, restarts: seq<Word>, j: nat)
    requires Finished(contents, l, data, restarts) && j < |restarts|
    ensures |data| + 4 * j + 4 <= |contents|
    ensures contents[|data| + 4 * j..|data| + 4 * j + 4] == Fixed32(restarts[j])
  {
    Fixed32sAt(restarts, j);
    var p := |data| + 4 * j;
    assert contents[p..p + 4] == Fixed32s(restarts)[4 * j..4 * j + 4];
  }

  lemma CountBytes(contents: Bytes, l: Layout, data: Bytes, restarts: seq<Word>)
    requires Finished(contents, l, data, restarts)
    ensures |contents| == |data| + 4 * |restarts| + 4 && contents[|contents| - 4..] == Fixed32(|restarts|)
  {
  }

  /** Block::Block: where the restart array is, or nothing if the block is too small. */
  method OpenBlock(contents: Bytes) returns (r: Option<(nat, nat)>)
    ensures forall l, data, restarts :: Finished(contents, l, data, restarts) ==> r == Some((|data|, |restarts|))
    ensures r.Some? ==> r.value.0 + 4 * r.value.1 + 4 == |contents|
  {
    if |contents| < 4 {
      r := None;
    } else {
      var numRestarts := DecodeFixed32(contents[|contents| - 4..]);
      var maxRestarts := (|contents| - 4) / 4;
      r := if numRestarts > maxRestarts then None else Some((|contents| - (1 + numRestarts) * 4, numRestarts));
    }
    forall l, data, restarts | Finished(contents, l, data, restarts) ensures r == Some((|data|, |restarts|)) {
      CountBytes(contents, l, data, restarts);
      Fixed32RoundTrip(|restarts|);
    }
  }

  // ---- one entry ----

  /** The sizes at the start of an entry, and where the key bytes begin. */
  datatype Header = Header(shared: Word, nonShared: Word, valueLength: Word, keyAt: nat)

  lemma SlicesOf(data: Bytes, p: nat, a: Bytes, b: Bytes, rest: Bytes)
    requires p + |a| + |b| + |rest| <= |data| && data[p..p + |a| + |b| + |rest|] == a + b + rest
    ensures data[p..p + |a|] == a && data[p + |a|..p + |a| + |b|] == b
    ensures data[p + |a| + |b|..p + |a| + |b| + |rest|] == rest
  {
    var s := data[p..p + |a| + |b| + |rest|];
    assert s[..|a|] == a && s[|a|..|a| + |b|] == b && s[|a| + |b|..] == rest;
    SubSlice(data, p, |s|, |a|, |a| + |b|);
    SubSlice(data, p, |s|, |a| + |b|, |s|);
  }

  ghost predicate HoldsEntry(data: Bytes, p: nat, limit: nat, shared: nat, key: Bytes, value: Bytes) {
    && shared <= |key| < LIMIT && |value| < LIMIT && p + |EntryBytes(shared, key, value)| <= limit <= |data|
    && data[p..p + |EntryBytes(shared, key, value)|] == EntryBytes(shared, key, value)
  }

  ghost function HeaderOf(p: nat, shared: nat, key: Bytes, value: Bytes): Header
    requires shared <= |key| < LIMIT && |value| < LIMIT
  {
    Header(shared, |key| - shared, |value|, p + |Varint(shared)| + |Varint(|key| - shared)| + |Varint(|value|)|)
  }

  /** An entry at p, taken apart. */
  lemma EntryParts(data: Bytes, p: nat, limit: nat, shared: nat, key: Bytes, value: Bytes)
    requires HoldsEntry(data, p, limit, shared, key, value)
    ensures var q := p + |Varint(shared)|; var r := q + |Varint(|key| - shared)|; var k := r + |Varint(|value|)|;
            var v := k + |key| - shared;
            && VarintAt(data, p, limit, shared) && VarintAt(data, q, limit, |key| - shared)
               && VarintAt(data, r, limit, |value|)
            && v + |value| == p + |EntryBytes(shared, key, value)|
            && data[k..v] == key[shared..] && data[v..v + |value|] == value
  {
    hide Varint;
    var a, b, c := Varint(shared), Varint(|key| - shared), Varint(|value|);
    var tail := key[shared..] + value;
    assert EntryBytes(shared, key, value) == a + b + (c + tail);
    SlicesOf(data, p, a, b, c + tail);
    assert c + tail == c + key[shared..] + value;
    SlicesOf(data, p + |a| + |b|, c, key[shared..], value);
  }

  lemma DecodeWord(data: Bytes, p: nat, limit: nat, v: Word)
    requires VarintAt(data, p, limit, v)
    ensures DecodeVarint(data, p, limit, 5) == Some((v, p + |Varint(v)|)) && Low32(v) == v
  {
    VarintFits(v);
    DecodeEncoded(data, p, limit, v, 5);
  }

  /** Three sizes, one after the other. */
  function DecodeThree(data: Bytes, p: nat, limit: nat): Option<Header>
    requires limit <= |data|
  {
    match DecodeVarint(data, p, limit, 5)
    case None => None
    case Some(a) =>
      match DecodeVarint(data, a.1, limit, 5)
      case None => None
      case Some(b) =>
        match DecodeVarint(data, b.1, limit, 5)
        case None => None
        case Some(c) => Some(Header(Low32(a.0), Low32(b.0), Low32(c.0), c.1))
  }

  /** DecodeEntry: nothing if the entry is cut off or its sizes pass the limit. */
  function EntryHeader(data: Bytes, p: nat, limit: nat): Option<Header>
    requires p <= limit <= |data|
  {
    if limit - p < 3 then None
    else match DecodeThree(data, p, limit)
      case None => None
      case Some(h) => if Low32(limit - h.keyAt) < Low32(h.nonShared + h.valueLength) then None else Some(h)
  }

  lemma HeaderDecodes(data: Bytes, p: nat, limit: nat, a: Word, b: Word, c: Word)
    requires VarintAt(data, p, limit, a) && VarintAt(data, p + |Varint(a)|, limit, b)
    requires VarintAt(data, p + |Varint(a)| + |Varint(b)|, limit, c)
    ensures DecodeThree(data, p, limit) == Some(Header(a, b, c, p + |Varint(a)| + |Varint(b)| + |Varint(c)|))
  {
    hide VarintAt;
    hide DecodeVarint;
    hide Varint;
    var q := p + |Varint(a)|;
    var r := q + |Varint(b)|;
    DecodeWord(data, p, limit, a);
    DecodeWord(data, q, limit, b);
    DecodeWord(data, r, limit, c);
    assert Low32(a) == a && Low32(b) == b && Low32(c) == c;
    hide Low32;
  }

  /** An entry is decoded to its own sizes. */
  lemma EntryDecodes(data: Bytes, p: nat, limit: nat, shared: nat, key: Bytes, value: Bytes)
    requires HoldsEntry(data, p, limit, shared, key, value) && |data| < LIMIT
    ensures p <= limit && EntryHeader(data, p, limit) == Some(HeaderOf(p, shared, key, value))
  {
    hide VarintAt;
    hide Varint;
    hide DecodeThree;
    EntryParts(data, p, limit, shared, key, value);
    HeaderDecodes(data, p, limit, shared, |key| - shared, |value|);
    SizesFit(limit, HeaderOf(p, shared, key, value));
  }

  lemma SizesFit(limit: nat, h: Header)
    requires h.keyAt + h.nonShared + h.valueLength <= limit < LIMIT
    ensures Low32(limit - h.keyAt) >= Low32(h.nonShared + h.valueLength)
  {
  }

  /** Three single-byte sizes need no varint decoding. */
  lemma FastPath(data: Bytes, p: nat, limit: nat)
    requires p + 3 <= limit <= |data| && data[p] < 128 && data[p + 1] < 128 && data[p + 2] < 128
    ensures DecodeThree(data, p, limit) == Some(Header(data[p], data[p + 1], data[p + 2], p + 3))
  {
  }

  /** The general path of DecodeEntry. */
  method DecodeSizes(data: Bytes, p: nat, limit: nat) returns (h: Option<Header>)
    requires limit <= |data|
    ensures h == DecodeThree(data, p, limit)
  {
    hide DecodeVarint;
    var next, a := GetVarint32Ptr(data, p, limit);
    if next == None { return None; }
    var next2, b := GetVarint32Ptr(data, next.value, limit);
    if next2 == None { return None; }
    var next3, c := GetVarint32Ptr(data, next2.value, limit);
    if next3 == None { return None; }
    return Some(Header(a, b, c, next3.value));
  }

  /** DecodeEntry, with its fast path. */
  method DecodeEntry(data: Bytes, p: nat, limit: nat) returns (h: Option<Header>)
    requires p <= limit <= |data|
    ensures h == EntryHeader(data, p, limit)
  {
    if limit - p < 3 { return None; }
    if data[p] < 128 && data[p + 1] < 128 && data[p + 2] < 128 {
      FastPath(data, p, limit);
      h := Some(Header(data[p], data[p + 1], data[p + 2], p + 3));
    } else {
      h := DecodeSizes(data, p, limit);
      if h == None { return None; }
    }
    hide DecodeThree;
    if (limit - h.value.keyAt) % LIMIT < (h.value.nonShared + h.value.valueLength) % LIMIT { return None; }
  }

  // ---- positions and offsets ----

  lemma {:induction false} OffsetsAscend(l: Layout, data: Bytes, i: nat, j: nat)
    requires Entries(l.pairs, l.shared, data, l.offs) && i < j <= |l.pairs|
    ensures l.offs[i] < l.offs[j] <= |data|
    decreases j - i
  {
    assert EntryAt(l.pairs, l.shared, data, l.offs, j - 1);
    if i < j - 1 { OffsetsAscend(l, data, i, j - 1); }
  }

  /** Comparing offsets compares positions. */
  lemma OffsetOrder(l: Layout, data: Bytes, i: nat, j: nat)
    requires Entries(l.pairs, l.shared, data, l.offs) && i <= |l.pairs| && j <= |l.pairs|
    ensures l.offs[i] < l.offs[j] <==> i < j
    ensures l.offs[i] <= |data| && (l.offs[i] == |data| <==> i == |l.pairs|)
  {
    if i < j { OffsetsAscend(l, data, i, j); }
    if j < i { OffsetsAscend(l, data, j, i); }
    if i < |l.pairs| { OffsetsAscend(l, data, i, |l.pairs|); }
  }

  /** Entry i lies in the block where its offset says. */
  lemma EntryInBlock(contents: Bytes, l: Layout, data: Bytes, restarts: seq<Word>, i: nat)
    requires Finished(contents, l, data, restarts) && i < |l.pairs|
    ensures |contents| < LIMIT && |l.shared| == |l.pairs| && |l.offs| == |l.pairs| + 1
    ensures HoldsEntry(contents, l.offs[i], |data|, l.shared[i], l.pairs[i].0, l.pairs[i].1)
    ensures l.offs[i + 1] == l.offs[i] + |EntryBytes(l.shared[i], l.pairs[i].0, l.pairs[i].1)|
  {
    assert EntryAt(l.pairs, l.shared, data, l.offs, i);
    assert contents[..|data|] == data;
    SubSlice(contents, 0, |data|, l.offs[i], l.offs[i + 1]);
  }

  /** At a restart point the whole key is in the entry. */
  lemma RestartKey(contents: Bytes, l: Layout, data: Bytes, restarts: seq<Word>, j: nat)
    requires Finished(contents, l, data, restarts) && 0 < j < |restarts|
    ensures |l.marks| == |restarts| && l.marks[j] < |l.pairs| == |l.offs| - 1
    ensures l.offs[l.marks[j]] <= |data| <= |contents|
    ensures var h := EntryHeader(contents, l.offs[l.marks[j]], |data|);
            h.Some? && h.value.keyAt + h.value.nonShared <= |contents|
            && contents[h.value.keyAt..h.value.keyAt + h.value.nonShared] == l.pairs[l.marks[j]].0
  {
    var i, p := l.marks[j], l.offs[l.marks[j]];
    RestartInFull(contents, l, data, restarts, j);
    EntryInBlock(contents, l, data, restarts, i);
    hide Finished;
    hide EntryHeader;
    EntryDecodes(contents, p, |data|, 0, l.pairs[i].0, l.pairs[i].1);
    EntryParts(contents, p, |data|, 0, l.pairs[i].0, l.pairs[i].1);
  }

  lemma RestartInFull(contents: Bytes, l: Layout, data: Bytes, restarts: seq<Word>, j: nat)
    requires Finished(contents, l, data, restarts) && 0 < j < |restarts|
    ensures |l.marks| == |restarts| && l.marks[j] < |l.pairs| == |l.shared| == |l.offs| - 1 && l.shared[l.marks[j]] == 0
    ensures |data| <= |contents| < LIMIT
  {
  }

  class Iter {
    const less: (Bytes, Bytes) -> bool
    const data: Bytes
    const restarts: nat     // offset of the restart array
    const numRestarts: nat
    var current: nat
    var restartIndex: nat
    var key: Bytes
    var valueAt: nat        // value_, as a slice of data
    var valueLength: nat
    ghost const layout: Layout
    ghost const entries: Bytes
    ghost const points: seq<Word>
    ghost var pos: nat      // the entry the iterator is at; past the last one if invalid

    ghost predicate Block()
    {
      && Finished(data, layout, entries, points) && restarts == |entries| && numRestarts == |points|
      && Transitive(less) && Ascending(layout.pairs, less)
    }

    /** NextEntryOffset is where entry i begins, and the shared part of its key is there. */
    ghost predicate Ready(i: nat)
      reads this
    {
      && Block() && i <= |layout.pairs| && valueAt + valueLength == layout.offs[i]
      && restartIndex < numRestarts && layout.marks[restartIndex] <= i
      && (i < |layout.pairs| ==>
            layout.shared[i] <= |key| && layout.shared[i] <= |layout.pairs[i].0|
                && key[..layout.shared[i]] == layout.pairs[i].0[..layout.shared[i]])
    }

    ghost predicate At(i: nat)
      reads this
    {
      && Block() && i < |layout.pairs| && current == layout.offs[i] && key == layout.pairs[i].0
      && valueAt + valueLength == layout.offs[i + 1] <= |data|
         && data[valueAt..valueAt + valueLength] == layout.pairs[i].1
      && restartIndex < numRestarts && layout.marks[restartIndex] <= i
      && (restartIndex + 1 < numRestarts ==> i <= layout.marks[restartIndex + 1])
    }

    ghost predicate Valid()
      reads this
    {
      && Block() && pos <= |layout.pairs|
      && if pos < |layout.pairs| then At(pos) else current == restarts && restartIndex == numRestarts
    }

    constructor (less: (Bytes, Bytes) -> bool, data: Bytes, restarts: nat, numRestarts: nat,
                 ghost layout: Layout, ghost entries: Bytes, ghost points: seq<Word>)
      requires Finished(data, layout, entries, points) && restarts == |entries| && numRestarts == |points|
      requires Transitive(less) && Ascending(layout.pairs, less)
      ensures Valid() && pos == |layout.pairs| && this.layout == layout && this.less == less
    {
      this.less, this.data, this.restarts, this.numRestarts := less, data, restarts, numRestarts;
      current, restartIndex, key, valueAt, valueLength := restarts, numRestarts, [], 0, 0;
      this.layout, this.entries, this.points, pos := layout, entries, points, |layout.pairs|;
    }

    method GetRestartPoint(j: nat) returns (offset: nat)
      requires Block() && j < numRestarts
      ensures offset == layout.offs[layout.marks[j]]
    {
      RestartBytes(data, layout, entries, points, j);
      Fixed32RoundTrip(points[j]);
      var at := restarts + 4 * j;
      offset := DecodeFixed32(data[at..at + 4]);
    }

    method SeekToRestartPoint(j: nat)
      requires Block() && j < numRestarts
      modifies this`key, this`restartIndex, this`valueAt, this`valueLength
      ensures Ready(layout.marks[j]) && restartIndex == j && key == []
    {
      key := [];
      restartIndex := j;
      var offset := GetRestartPoint(j);
      valueAt, valueLength := offset, 0;
    }

    /** Parse the entry after the current one. */
    method ParseNextKey(ghost i: nat) returns (ok: bool)
      requires Ready(i)
      modifies this
      ensures Valid() && pos == i && (ok <==> i < |layout.pairs|)
    {
      OffsetOrder(layout, entries, i, i);
      pos := i;
      current := valueAt + valueLength;
      if current >= restarts {
        current, restartIndex := restarts, numRestarts;
        return false;
      }
      TakeEntry(i);
      ok := true;
    }

    /** Decode the entry at current_, rebuild its key, and find its restart block. */
    method TakeEntry(ghost i: nat)
      requires Ready(i) && i < |layout.pairs| && current == layout.offs[i]
      modifies this`key, this`valueAt, this`valueLength, this`restartIndex
      ensures At(i)
    {
      KeyAndValue(i);
      var h := DecodeEntry(data, current, restarts);
      hide Finished;
      key := key[..h.value.shared] + data[h.value.keyAt..h.value.keyAt + h.value.nonShared];
      valueAt, valueLength := h.value.keyAt + h.value.nonShared, h.value.valueLength;
      AdvanceRestart(i);
    }

    lemma KeyAndValue(i: nat)
      requires Ready(i) && i < |layout.pairs|
      ensures var pair := layout.pairs[i]; var shared := layout.shared[i]; var p := layout.offs[i];
              p <= restarts <= |data| && EntryHeader(data, p, restarts).Some?
              && var h := EntryHeader(data, p, restarts).value;
                h.shared == shared && h.keyAt + h.nonShared + h.valueLength == layout.offs[i + 1] <= restarts
                && key[..shared] + data[h.keyAt..h.keyAt + h.nonShared] == pair.0
                && data[h.keyAt + h.nonShared..layout.offs[i + 1]] == pair.1
    {
      hide HoldsEntry;
      hide Finished;
      hide EntryHeader;
      var pair := layout.pairs[i];
      EntryInBlock(data, layout, entries, points, i);
      EntryDecodes(data, layout.offs[i], restarts, layout.shared[i], pair.0, pair.1);
      EntryParts(data, layout.offs[i], restarts, layout.shared[i], pair.0, pair.1);
    }

    method AdvanceRestart(ghost i: nat)
      requires Block() && i < |layout.pairs| && current == layout.offs[i]
      requires restartIndex < numRestarts && layout.marks[restartIndex] <= i
      modifies this`restartIndex
      ensures restartIndex < numRestarts && layout.marks[restartIndex] <= i
      ensures restartIndex + 1 < numRestarts ==> i <= layout.marks[restartIndex + 1]
    {
      while restartIndex + 1 < numRestarts
        invariant restartIndex < numRestarts && layout.marks[restartIndex] <= i
      {
        var point := GetRestartPoint(restartIndex + 1);
        OffsetOrder(layout, entries, layout.marks[restartIndex + 1], i);
        if point >= current { break; }
        restartIndex := restartIndex + 1;
      }
    }

    method Next()
      requires Valid() && pos < |layout.pairs|
      modifies this
      ensures Valid() && pos == old(pos) + 1
    {
      NextReady(pos);
      var _ := ParseNextKey(pos + 1);
    }

    lemma NextReady(i: nat)
      requires At(i)
      ensures Ready(i + 1)
    {
      if i + 1 < |layout.pairs| { assert EntryAt(layout.pairs, layout.shared, entries, layout.offs, i + 1); }
    }

    /** Prev: parse again from the last restart point before the current entry. */
    method Prev()
      requires Valid() && pos < |layout.pairs|
      modifies this
      ensures Valid() && pos == if old(pos) == 0 then |layout.pairs| else old(pos) - 1
    {
      ghost var i := pos;
      var original := current;
      while true
        invariant At(i) && restartIndex < numRestarts && current == original
        decreases restartIndex
      {
        var point := GetRestartPoint(restartIndex);
        OffsetOrder(layout, entries, layout.marks[restartIndex], i);
        if point < original { break; }
        if restartIndex == 0 {
          current, restartIndex, pos := restarts, numRestarts, |layout.pairs|;
          return;
        }
        restartIndex := restartIndex - 1;
      }
      SeekToRestartPoint(restartIndex);
      ParseUpTo(restartIndex, i, original);
    }

    /** Parse from restart point j until an entry ends at or after `original`. */
    method ParseUpTo(j: nat, ghost i: nat, original: nat)
      requires Block() && j < numRestarts && Ready(layout.marks[j]) && layout.marks[j] <= i <= |layout.pairs|
               && original == layout.offs[i]
      requires layout.marks[j] < i || i == |layout.pairs|
      modifies this
      ensures Valid() && pos == if layout.marks[j] < i then i - 1 else i
    {
      hide Transitive;
      hide Ascending;
      ghost var k := layout.marks[j];
      while true
        invariant Ready(k) && original == layout.offs[i]
                  && (k < i || (k == i == layout.marks[j] && i == |layout.pairs|))
        decreases i - k
      {
        var ok := ParseNextKey(k);
        if !ok { return; }
        OffsetOrder(layout, entries, k + 1, i);
        if valueAt + valueLength >= original { return; }
        NextReady(k);
        k := k + 1;
      }
    }

    /** Seek: binary search over the restart points, then linear. */
    method Seek(target: Bytes)
      requires Block()
      modifies this
      ensures Valid() && forall i :: 0 <= i < pos ==> less(layout.pairs[i].0, target)
      ensures pos < |layout.pairs| ==> !less(layout.pairs[pos].0, target)
    {
      var left := FindRestart(target);
      hide Finished;
      hide Transitive;
      hide Ascending;
      SeekToRestartPoint(left);
      ghost var k := layout.marks[left];
      while true
        invariant Ready(k) && forall i :: 0 <= i < k ==> less(layout.pairs[i].0, target)
        decreases |layout.pairs| - k
      {
        var ok := ParseNextKey(k);
        if !ok || !less(key, target) { return; }
        NextReady(k);
        k := k + 1;
      }
    }

    /** The last restart point with a key before the target, or the first one. */
    method FindRestart(target: Bytes) returns (left: nat)
      requires Block()
      ensures left < numRestarts && forall i :: 0 <= i < layout.marks[left] ==> less(layout.pairs[i].0, target)
    {
      left := 0;
      var right := numRestarts - 1;
      while left < right
        invariant left <= right < numRestarts
        invariant forall i :: 0 <= i < layout.marks[left] ==> less(layout.pairs[i].0, target)
      {
        var mid := (left + right + 1) / 2;
        var before := RestartKeyBefore(mid, target);
        if before { left := mid; } else { right := mid - 1; }
      }
    }

    method RestartKeyBefore(mid: nat, target: Bytes) returns (before: bool)
      requires Block() && 0 < mid < numRestarts
      ensures layout.marks[mid] < |layout.pairs| && before == less(layout.pairs[layout.marks[mid]].0, target)
    {
      hide EntryHeader;
      hide Finished;
      hide Transitive;
      hide Ascending;
      var offset := GetRestartPoint(mid);
      RestartKey(data, layout, entries, points, mid);
      var h := DecodeEntry(data, offset, restarts);
      var midKey := data[h.value.keyAt..h.value.keyAt + h.value.nonShared];
      before := less(midKey, target);
    }

    method SeekToFirst()
      requires Block()
      modifies this
      ensures Valid() && pos == 0
    {
      SeekToRestartPoint(0);
      var _ := ParseNextKey(0);
    }

    method SeekToLast()
      requires Block()
      modifies this
      ensures Valid() && pos == if |layout.pairs| == 0 then 0 else |layout.pairs| - 1
    {
      SeekToRestartPoint(numRestarts - 1);
      ParseUpTo(numRestarts - 1, |layout.pairs|, restarts);
    }

    /** Valid() of the iterator: current_ is before the restart array. */
    lemma InRange()
      requires Valid()
      ensures current < restarts <==> pos < |layout.pairs|
    {
      OffsetOrder(layout, entries, pos, pos);
    }

    /** key() and value() */
    method Current() returns (pair: Pair)
      requires Valid() && pos < |layout.pairs|
      ensures pair == layout.pairs[pos]
    {
      pair := (key, data[valueAt..valueAt + valueLength]);
    }
  }

  method Build(pairs: seq<Pair>, interval: nat)
    returns (contents: Bytes, ghost layout: Layout, ghost entries: Bytes, ghost points: seq<Word>)
    requires interval >= 1 && TotalSize(pairs) + 4 * |pairs| + 8 < LIMIT  // sizes and offsets fit 32 bits
    ensures Finished(contents, layout, entries, points) && layout.pairs == pairs
  {
    hide Describes;
    var builder := new BlockBuilder(interval);
    for i := 0 to |pairs|
      invariant fresh(builder) && builder.Valid() && builder.layout.pairs == pairs[..i]
    {
      PrefixSize(pairs, i);
      builder.Add(pairs[i].0, pairs[i].1);
    }
    assert pairs[..|pairs|] == pairs;
    entries := builder.buffer;
    contents := builder.Finish();
    layout, points := builder.layout, builder.restarts;
  }

  method Scan(less: (Bytes, Bytes) -> bool, contents: Bytes, ghost layout: Layout, ghost entries: Bytes,
              ghost points: seq<Word>)
    returns (out: seq<Pair>)
    requires Finished(contents, layout, entries, points) && Transitive(less) && Ascending(layout.pairs, less)
    ensures out == layout.pairs
  {
    var block := OpenBlock(contents);
    hide Finished;
    hide Transitive;
    hide Ascending;
    out := [];
    var iter := new Iter(less, contents, block.value.0, block.value.1, layout, entries, points);
    iter.SeekToFirst();
    while iter.current < iter.restarts
      invariant fresh(iter) && iter.Valid() && iter.layout == layout && out == layout.pairs[..iter.pos]
      decreases |layout.pairs| - iter.pos
    {
      iter.InRange();
      var pair := iter.Current();
      out := out + [pair];
      iter.Next();
    }
    iter.InRange();
  }

  /** Build a block of these pairs, open it, and read it through. */
  method BuildAndScan(pairs: seq<Pair>, interval: nat, less: (Bytes, Bytes) -> bool) returns (out: seq<Pair>)
    requires interval >= 1 && TotalSize(pairs) + 4 * |pairs| + 8 < LIMIT
    requires Transitive(less) && Ascending(pairs, less)
    ensures out == pairs
  {
    var contents, layout, entries, points := Build(pairs, interval);
    out := Scan(less, contents, layout, entries, points);
  }
}
