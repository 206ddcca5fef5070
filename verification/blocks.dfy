/** Prefix-compressed blocks with restart points: table/block_builder.cc and table/block.cc. */
module Blocks {
  import opened InternalKeys
  import opened Coding

  type Pair = (Bytes, Bytes)  // key and value

  const LIMIT := 0x1_0000_0000  // sizes and offsets fit 32 bits

  ghost predicate Transitive(less: (Bytes, Bytes) -> bool) {
    forall a, b, c :: less(a, b) && less(b, c) ==> less(a, c)
  }

  ghost predicate Ascending(pairs: seq<Pair>, less: (Bytes, Bytes) -> bool) {
    forall i, j :: 0 <= i < j < |pairs| ==> less(pairs[i].0, pairs[j].0)
  }

  // ---- layout ----

  function EntryBytes(shared: nat, key: Bytes, value: Bytes): Bytes
    requires shared <= |key|
  {
    Varint(shared) + Varint(|key| - shared) + Varint(|value|) + key[shared..] + value
  }

  /** Entry i repeats the first `shared` bytes of the previous key. */
  ghost predicate SharesPrefix(pairs: seq<Pair>, shared: seq<nat>, i: nat)
    requires i < |pairs| == |shared|
  {
    && shared[i] <= |pairs[i].0| < LIMIT && |pairs[i].1| < LIMIT && (i == 0 ==> shared[i] == 0)
    && (i > 0 ==> shared[i] <= |pairs[i - 1].0| && pairs[i].0[..shared[i]] == pairs[i - 1].0[..shared[i]])
  }

  ghost predicate EntryAt(pairs: seq<Pair>, shared: seq<nat>, data: Bytes, offs: seq<nat>, i: nat)
    requires i < |pairs| == |shared| && |offs| == |pairs| + 1
  {
    && SharesPrefix(pairs, shared, i) && offs[i] < offs[i + 1] <= |data|
    && data[offs[i]..offs[i + 1]] == EntryBytes(shared[i], pairs[i].0, pairs[i].1)
  }

  /** `data` is the pairs one after the other; entry i begins at offs[i]. */
  ghost predicate Entries(pairs: seq<Pair>, shared: seq<nat>, data: Bytes, offs: seq<nat>) {
    && |shared| == |pairs| && |offs| == |pairs| + 1 && offs[0] == 0 && offs[|pairs|] == |data|
    && forall i :: 0 <= i < |pairs| ==> EntryAt(pairs, shared, data, offs, i)
  }

  /** The restart points: entries stored in full, the first among them. */
  ghost predicate Restarts(pairs: seq<Pair>, shared: seq<nat>, marks: seq<nat>) {
    && |shared| == |pairs| && |marks| > 0 && marks[0] == 0
    && (forall j :: 0 < j < |marks| ==> marks[j] < |pairs|)
    && (forall j, k :: 0 <= j < k < |marks| ==> marks[j] < marks[k])
    && forall j :: 0 <= j < |marks| && marks[j] < |pairs| ==> shared[marks[j]] == 0
  }

  ghost predicate OffsetsOf(marks: seq<nat>, offs: seq<nat>, restarts: seq<Word>) {
    |restarts| == |marks| && forall j :: 0 <= j < |marks| ==> marks[j] < |offs| && restarts[j] == offs[marks[j]]
  }

  // ---- the builder ----

  function SharedPrefix(a: Bytes, b: Bytes): (n: nat)
    ensures n <= |a| && n <= |b| && a[..n] == b[..n]
    ensures n < |a| && n < |b| ==> a[n] != b[n]
  {
    if a != [] && b != [] && a[0] == b[0] then
      var n := 1 + SharedPrefix(a[1..], b[1..]);
      assert a[..n] == [a[0]] + a[1..][..n - 1] && b[..n] == [b[0]] + b[1..][..n - 1];
      n
    else 0
  }

  lemma AppendEntry(pairs: seq<Pair>, shared: seq<nat>, data: Bytes, offs: seq<nat>, n: nat, key: Bytes, value: Bytes)
    requires Entries(pairs, shared, data, offs) && n <= |key| < LIMIT && |value| < LIMIT
    requires if pairs == [] then n == 0 else n <= |pairs[|pairs| - 1].0| && key[..n] == pairs[|pairs| - 1].0[..n]
    ensures var data' := data + EntryBytes(n, key, value);
            Entries(pairs + [(key, value)], shared + [n], data', offs + [|data'|])
  {
    var e := EntryBytes(n, key, value);
    var pairs', shared', data' := pairs + [(key, value)], shared + [n], data + e;
    var offs' := offs + [|data'|];
    forall i | 0 <= i < |pairs'| ensures EntryAt(pairs', shared', data', offs', i) {
      if i < |pairs| {
        assert EntryAt(pairs, shared, data, offs, i);
        assert data'[offs[i]..offs[i + 1]] == data[offs[i]..offs[i + 1]];
      } else {
        assert data'[|data|..|data'|] == e;
      }
    }
  }

  lemma EntriesEnd(pairs: seq<Pair>, shared: seq<nat>, data: Bytes, offs: seq<nat>)
    requires Entries(pairs, shared, data, offs)
    ensures |shared| == |pairs| && |offs| == |pairs| + 1 && offs[|pairs|] == |data|
  {
  }

  lemma NextMark(pairs: seq<Pair>, shared: seq<nat>, marks: seq<nat>, n: nat, pair: Pair, due: bool)
    requires Restarts(pairs, shared, marks) && (pairs == [] ==> marks == [0] && n == 0 && !due) && (due ==> n == 0)
    ensures Restarts(pairs + [pair], shared + [n], if due then marks + [|pairs|] else marks)
  {
  }

  lemma NextOffset(pairs: seq<Pair>, marks: seq<nat>, offs: seq<nat>, restarts: seq<Word>, next: nat, here: Word,
                   due: bool)
    requires OffsetsOf(marks, offs, restarts) && |offs| == |pairs| + 1 && offs[|pairs|] == here
    ensures OffsetsOf(if due then marks + [|pairs|] else marks, offs + [next], if due then restarts + [here]
                      else restarts)
  {
  }

  /** What a block holds: its pairs, how many key bytes each entry shares with the one
      before, where each entry begins, and which entries are restart points. */
  datatype Layout = Layout(pairs: seq<Pair>, shared: seq<nat>, offs: seq<nat>, marks: seq<nat>)

  ghost predicate Describes(l: Layout, data: Bytes, restarts: seq<Word>) {
    Entries(l.pairs, l.shared, data, l.offs) && Restarts(l.pairs, l.shared, l.marks)
        && OffsetsOf(l.marks, l.offs, restarts)
  }

  function LastKey(pairs: seq<Pair>): Bytes { if pairs == [] then [] else pairs[|pairs| - 1].0 }

  function Extended(l: Layout, n: nat, pair: Pair, end: nat, due: bool): Layout {
    Layout(l.pairs + [pair], l.shared + [n], l.offs + [end], if due then l.marks + [|l.pairs|] else l.marks)
  }

  lemma AddToLayout(l: Layout, data: Bytes, restarts: seq<Word>, n: nat, pair: Pair, due: bool)
    requires Describes(l, data, restarts) && |data| < LIMIT
    requires n <= |pair.0| < LIMIT && |pair.1| < LIMIT && n <= |LastKey(l.pairs)|
             && pair.0[..n] == LastKey(l.pairs)[..n]
    requires (due ==> n == 0) && (l.pairs == [] ==> !due && l.marks == [0])
    ensures var data' := data + EntryBytes(n, pair.0, pair.1);
            Describes(Extended(l, n, pair, |data'|, due), data', if due then restarts + [|data|] else restarts)
  {
    hide Entries;
    hide Restarts;
    hide OffsetsOf;
    hide EntryBytes;
    EntriesEnd(l.pairs, l.shared, data, l.offs);
    AppendEntry(l.pairs, l.shared, data, l.offs, n, pair.0, pair.1);
    NextMark(l.pairs, l.shared, l.marks, n, pair, due);
    NextOffset(l.pairs, l.marks, l.offs, restarts, |data| + |EntryBytes(n, pair.0, pair.1)|, |data|, due);
  }

  /** An upper bound on the size of the entries: three sizes of at most five bytes each. */
  function TotalSize(pairs: seq<Pair>): nat {
    if pairs == [] then 0
    else TotalSize(pairs[..|pairs| - 1]) + 15 + |pairs[|pairs| - 1].0| + |pairs[|pairs| - 1].1|
  }

  lemma {:induction false} PrefixSize(pairs: seq<Pair>, i: nat)
    requires i < |pairs|
    ensures TotalSize(pairs[..i + 1]) == TotalSize(pairs[..i]) + 15 + |pairs[i].0| + |pairs[i].1|
    ensures TotalSize(pairs[..i + 1]) <= TotalSize(pairs)
    decreases |pairs|
  {
    assert pairs[..i + 1][..i] == pairs[..i];
    if i + 1 == |pairs| {
      assert pairs[..i + 1] == pairs;
    } else {
      var init := pairs[..|pairs| - 1];
      PrefixSize(init, i);
      assert init[..i + 1] == pairs[..i + 1] && init[..i] == pairs[..i];
    }
  }

  lemma OnePairMore(pairs: seq<Pair>, pair: Pair)
    ensures TotalSize(pairs + [pair]) == TotalSize(pairs) + 15 + |pair.0| + |pair.1|
  {
    assert (pairs + [pair])[..|pairs|] == pairs;
  }

  /** How many bytes of entries and how many restart points a block has, and how many
      entries came since the last of these. */
  datatype Fill = Fill(size: nat, restarts: nat, counter: nat)

  function FillNext(interval: nat, f: Fill, last: Bytes, pair: Pair): Fill {
    if f.counter < interval then
      Fill(f.size + |EntryBytes(SharedPrefix(last, pair.0), pair.0, pair.1)|, f.restarts, f.counter + 1)
    else
      Fill(f.size + |EntryBytes(0, pair.0, pair.1)|, f.restarts + 1, 1)
  }

  function FillOf(interval: nat, pairs: seq<Pair>): Fill {
    if pairs == [] then Fill(0, 1, 0)
    else var n := |pairs| - 1; FillNext(interval, FillOf(interval, pairs[..n]), LastKey(pairs[..n]), pairs[n])
  }

  /** The size of a finished block with these pairs. */
  function BlockSize(interval: nat, pairs: seq<Pair>): nat {
    var f := FillOf(interval, pairs);
    f.size + 4 * f.restarts + 4
  }

  lemma FillMore(interval: nat, pairs: seq<Pair>, pair: Pair)
    ensures FillOf(interval, pairs + [pair]) == FillNext(interval, FillOf(interval, pairs), LastKey(pairs), pair)
  {
    assert (pairs + [pair])[..|pairs|] == pairs;
  }

  class BlockBuilder {
    const interval: nat
    var buffer: Bytes
    var restarts: seq<Word>
    var counter: nat
    var lastKey: Bytes
    var finished: bool
    ghost var layout: Layout

    ghost predicate Valid()
      reads this
    {
      && interval >= 1 && !finished && counter <= interval && Describes(layout, buffer, restarts)
      && lastKey == LastKey(layout.pairs)
      && |buffer| <= TotalSize(layout.pairs) && |restarts| <= |layout.pairs| + 1
      && FillOf(interval, layout.pairs) == Fill(|buffer|, |restarts|, counter)
      && (layout.pairs == [] <==> counter == 0) && (layout.pairs == [] ==> layout.marks == [0])
    }

    constructor (interval: nat)
      requires interval >= 1
      ensures Valid() && layout.pairs == [] && this.interval == interval && buffer == [] && |restarts| == 1
    {
      this.interval := interval;
      buffer, restarts, counter, lastKey, finished := [], [0], 0, [], false;
      layout := Layout([], [], [0], [0]);
    }

    /** Start over. */
    method Reset()
      requires interval >= 1
      modifies this
      ensures Valid() && layout.pairs == [] && buffer == [] && |restarts| == 1
    {
      buffer, restarts, counter, lastKey, finished := [], [0], 0, [], false;
      layout := Layout([], [], [0], [0]);
    }

    function CurrentSizeEstimate(): nat
      reads this
    { |buffer| + 4 * |restarts| + 4 }

    lemma SizeBound()
      requires Valid()
      ensures |buffer| <= TotalSize(layout.pairs) && |restarts| <= |layout.pairs| + 1
    {
    }

    lemma SizeIs()
      requires Valid()
      ensures CurrentSizeEstimate() == BlockSize(interval, layout.pairs)
    {
    }

    /** Empty() */
    lemma EmptyIffNoPairs()
      requires Valid()
      ensures buffer == [] <==> layout.pairs == []
    {
      if layout.pairs != [] { assert EntryAt(layout.pairs, layout.shared, buffer, layout.offs, 0); }
    }

    /** Add.  The entry shares a prefix with the last key unless a restart is due. */
    method Add(key: Bytes, value: Bytes)
      requires Valid() && |buffer| < LIMIT && |key| < LIMIT && |value| < LIMIT
      modifies this
      ensures Valid() && layout.pairs == old(layout.pairs) + [(key, value)]
    {
      OnePairMore(layout.pairs, (key, value));
      FillMore(interval, layout.pairs, (key, value));
      hide Describes;
      hide TotalSize;
      hide FillOf;
      hide EntryBytes;
      hide SharedPrefix;
      var n := 0;
      ghost var data0, restarts0, due := buffer, restarts, counter == interval;
      if counter < interval {
        n := CommonPrefix(key);
      } else {
        restarts := restarts + [|buffer|];
        counter := 0;
      }
      AddToLayout(layout, data0, restarts0, n, (key, value), due);
      var entry := MakeEntry(n, key, value);
      buffer := buffer + entry;
      layout := Extended(layout, n, (key, value), |buffer|, due);
      assert lastKey[..n] + key[n..] == key;
      lastKey := lastKey[..n] + key[n..];
      counter := counter + 1;
    }

    method MakeEntry(n: nat, key: Bytes, value: Bytes) returns (entry: Bytes)
      requires n <= |key| < LIMIT && |value| < LIMIT
      ensures entry == EntryBytes(n, key, value) && |entry| <= 15 + |key| + |value|
    {
      VarintFits(n);
      VarintFits(|key| - n);
      VarintFits(|value|);
      hide Varint;
      var x := EncodeVarint32(n);
      var y := EncodeVarint32(|key| - n);
      var z := EncodeVarint32(|value|);
      entry := x + y + z + key[n..] + value;
    }

    method CommonPrefix(key: Bytes) returns (n: nat)
      ensures n == SharedPrefix(lastKey, key)
    {
      n := 0;
      var minLength := if |lastKey| < |key| then |lastKey| else |key|;
      while n < minLength && lastKey[n] == key[n]
        invariant n <= minLength && lastKey[..n] == key[..n]
      {
        n := n + 1;
      }
      PrefixIsUnique(lastKey, key, n);
    }

    /** Finish: the restart array and its length follow the entries. */
    method Finish() returns (contents: Bytes)
      requires Valid() && |restarts| < LIMIT
      modifies this`buffer, this`finished
      ensures contents == buffer == old(buffer) + Fixed32s(restarts) + Fixed32(|restarts|) && finished
      ensures |contents| == BlockSize(interval, layout.pairs)
    {
      for i := 0 to |restarts|
        invariant buffer == old(buffer) + Fixed32s(restarts[..i])
      {
        assert restarts[..i + 1][..i] == restarts[..i];
        buffer := buffer + Fixed32(restarts[i]);
      }
      assert restarts[..|restarts|] == restarts;
      buffer := buffer + Fixed32(|restarts|);
      finished := true;
      return buffer;
    }
  }

  lemma PrefixIsUnique(a: Bytes, b: Bytes, n: nat)
    requires n <= |a| && n <= |b| && a[..n] == b[..n] && (n < |a| && n < |b| ==> a[n] != b[n])
    ensures n == SharedPrefix(a, b)
  {
    var m := SharedPrefix(a, b);
    assert forall i :: 0 <= i < m ==> a[..m][i] == b[..m][i];
    assert forall i :: 0 <= i < n ==> a[..n][i] == b[..n][i];
  }
}
