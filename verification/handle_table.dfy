/** The hash table of the block cache, with its chains (HandleTable in util/cache.cc). */
module HandleTables {
  import opened InternalKeys

  type Key = string
  type Id = nat  // an LRUHandle*

  /** What the table reads of a handle. */
  datatype Item = Item(id: Id, key: Key, hash: nat)

  type Buckets = seq<seq<Item>>

  ghost function ItemsOf(buckets: Buckets): set<Item> {
    set b, i | 0 <= b < |buckets| && 0 <= i < |buckets[b]| :: buckets[b][i]
  }

  /** Every item is in the bucket of its hash, and no two have the same key. */
  ghost predicate Hashed(buckets: Buckets) {
    && |buckets| > 0
    && (forall b, i :: 0 <= b < |buckets| && 0 <= i < |buckets[b]| ==> buckets[b][i].hash % |buckets| == b)
    && (forall b, i, j :: 0 <= b < |buckets| && 0 <= i < j < |buckets[b]| ==> buckets[b][i].key != buckets[b][j].key)
  }

  /** The hash is a function of the key. */
  ghost predicate SameKeySameHash(items: set<Item>) {
    forall x, y :: x in items && y in items && x.key == y.key ==> x.hash == y.hash
  }

  ghost predicate NewHashFits(items: set<Item>, key: Key, hash: nat) {
    forall x :: x in items && x.key == key ==> x.hash == hash
  }

  function Total(buckets: Buckets): nat {
    if buckets == [] then 0 else Total(buckets[..|buckets| - 1]) + |buckets[|buckets| - 1]|
  }

  lemma {:induction false} TotalChanges(buckets: Buckets, b: nat, chain: seq<Item>)
    requires b < |buckets|
    ensures Total(buckets[b := chain]) == Total(buckets) - |buckets[b]| + |chain|
    decreases |buckets|
  {
    var n := |buckets| - 1;
    if b < n {
      TotalChanges(buckets[..n], b, chain);
      assert buckets[b := chain][..n] == buckets[..n][b := chain];
    } else {
      assert buckets[b := chain][..n] == buckets[..n];
    }
  }

  lemma ItemsChange(buckets: Buckets, b: nat, chain: seq<Item>, gone: set<Item>, added: set<Item>)
    requires b < |buckets| && Hashed(buckets)
    requires forall x :: x in chain <==> (x in buckets[b] && x !in gone) || x in added
    requires forall x :: x in gone ==> x.hash % |buckets| == b
    ensures ItemsOf(buckets[b := chain]) == ItemsOf(buckets) - gone + added
  {
    var buckets' := buckets[b := chain];
    forall x | x in ItemsOf(buckets) - gone + added ensures x in ItemsOf(buckets') {
      if x in chain {
        var i :| 0 <= i < |chain| && chain[i] == x;
        assert buckets'[b][i] == x;
      } else {
        var c, i :| 0 <= c < |buckets| && 0 <= i < |buckets[c]| && buckets[c][i] == x;
        assert c != b && buckets'[c][i] == x;
      }
    }
    forall x | x in ItemsOf(buckets') ensures x in ItemsOf(buckets) - gone + added {
      var c, i :| 0 <= c < |buckets'| && 0 <= i < |buckets'[c]| && buckets'[c][i] == x;
      if c == b {
        assert x in chain;
        if x !in added {
          var j :| 0 <= j < |buckets[b]| && buckets[b][j] == x;
        }
      } else {
        assert buckets[c][i] == x;
      }
    }
  }

  /** Distinct keys within each bucket and hashes by key: distinct keys altogether. */
  lemma KeysDistinct(buckets: Buckets, x: Item, y: Item)
    requires Hashed(buckets) && SameKeySameHash(ItemsOf(buckets))
    requires x in ItemsOf(buckets) && y in ItemsOf(buckets) && x.key == y.key
    ensures x == y
  {
    var b, i :| 0 <= b < |buckets| && 0 <= i < |buckets[b]| && buckets[b][i] == x;
    var c, j :| 0 <= c < |buckets| && 0 <= j < |buckets[c]| && buckets[c][j] == y;
    assert b == c;
  }

  predicate PowerOfTwo(n: nat) { n == 1 || (n > 0 && n % 2 == 0 && PowerOfTwo(n / 2)) }

  class HandleTable {
    var buckets: Buckets  // list_ with length_ buckets
    var elems: nat

    /** There is a bucket for each item, and their number is a power of two, four at least. */
    ghost predicate Valid()
      reads this
    {
      && Hashed(buckets) && SameKeySameHash(ItemsOf(buckets)) && elems == Total(buckets)
      && elems <= |buckets| && |buckets| >= 4 && PowerOfTwo(|buckets|)
    }

    ghost function Items(): set<Item>
      reads this
    { ItemsOf(buckets) }

    constructor ()
      ensures Valid() && Items() == {} && fresh(this)
    {
      buckets, elems := [[], [], [], []], 0;
      EmptyTotal([[], [], [], []]);
    }

    /** FindPointer: the bucket, and the position of the match in its chain or its end. */
    method FindPointer(key: Key, hash: nat) returns (b: nat, i: nat)
      requires Valid() && NewHashFits(Items(), key, hash)
      ensures b == hash % |buckets| && i <= |buckets[b]| && (i < |buckets[b]| ==> buckets[b][i].key == key)
      ensures forall j :: 0 <= j < i ==> buckets[b][j].key != key
      ensures i == |buckets[b]| ==> forall x :: x in Items() ==> x.key != key
    {
      b := hash % |buckets|;
      i := 0;
      while i < |buckets[b]| && (buckets[b][i].hash != hash || buckets[b][i].key != key)
        invariant i <= |buckets[b]| && forall j :: 0 <= j < i ==> buckets[b][j].key != key
      {
        assert buckets[b][i] in Items();
        i := i + 1;
      }
      if i == |buckets[b]| {
        forall x | x in Items() ensures x.key != key {
          var c, j :| 0 <= c < |buckets| && 0 <= j < |buckets[c]| && buckets[c][j] == x;
          assert c != b ==> x.hash != hash;
        }
      }
    }

    method Lookup(key: Key, hash: nat) returns (r: Option<Id>)
      requires Valid() && NewHashFits(Items(), key, hash)
      ensures match r case None => forall x :: x in Items() ==> x.key != key
                      case Some(id) => Item(id, key, hash) in Items()
    {
      var b, i := FindPointer(key, hash);
      if i == |buckets[b]| { return None; }
      assert buckets[b][i] in Items();
      return Some(buckets[b][i].id);
    }

    /** Put h in front of the match's place, or at the end of the chain. */
    method Insert(h: Item) returns (replaced: Option<Id>)
      requires Valid() && NewHashFits(Items(), h.key, h.hash)
      modifies this
      ensures Valid() && (elems <= old(|buckets|) ==> |buckets| == old(|buckets|))
      ensures match replaced case None => Items() == old(Items()) + {h} && forall x :: x in old(Items()) ==>
                x.key != h.key
                             case Some(id) => Item(id, h.key, h.hash) in old(Items())
                                              && Items() == old(Items()) - {Item(id, h.key, h.hash)} + {h}
    {
      var b, i := FindPointer(h.key, h.hash);
      ghost var before := buckets;
      var chain := buckets[b];
      if i < |chain| {
        var found := chain[i];
        replaced := Some(found.id);
        assert found in Items();
        ChainReplaced(buckets, b, i, h);
        buckets := buckets[b := chain[i := h]];
      } else {
        replaced := None;
        ChainExtended(buckets, b, h);
        buckets := buckets[b := chain + [h]];
        elems := elems + 1;
        if elems > |buckets| { Resize(); }
      }
    }

    method Remove(key: Key, hash: nat) returns (r: Option<Id>)
      requires Valid() && NewHashFits(Items(), key, hash)
      modifies this
      ensures Valid() && forall x :: x in Items() ==> x.key != key
      ensures match r case None => Items() == old(Items())
                      case Some(id) => Item(id, key, hash) in old(Items())
                                       && Items() == old(Items()) - {Item(id, key, hash)}
    {
      OnePerKey();
      var b, i := FindPointer(key, hash);
      var chain := buckets[b];
      if i == |chain| { return None; }
      var found := chain[i];
      assert found in Items();
      ChainShortened(buckets, b, i);
      buckets := buckets[b := chain[..i] + chain[i + 1..]];
      elems := elems - 1;
      return Some(found.id);
    }

    lemma OnePerKey()
      requires Valid()
      ensures forall x, y :: x in Items() && y in Items() && x.key == y.key ==> x == y
    {
      forall x, y | x in Items() && y in Items() && x.key == y.key ensures x == y { KeysDistinct(buckets, x, y); }
    }

    /** Resize: rehash every item into enough buckets. */
    method Resize()
      requires Hashed(buckets) && SameKeySameHash(ItemsOf(buckets)) && elems == Total(buckets)
      modifies this`buckets
      ensures Valid() && Items() == old(Items())
      ensures |buckets| == 4 || |buckets| / 2 < elems
    {
      var newLength := 4;
      while newLength < elems
        invariant newLength >= 4 && PowerOfTwo(newLength) && (newLength == 4 || newLength / 2 < elems)
      {
        newLength := newLength * 2;
      }
      buckets := Rehash(buckets, newLength);
    }
  }

  method Rehash(buckets: Buckets, newLength: nat) returns (list: Buckets)
    requires Hashed(buckets) && SameKeySameHash(ItemsOf(buckets)) && newLength > 0
    ensures Hashed(list) && |list| == newLength && ItemsOf(list) == ItemsOf(buckets) && Total(list) == Total(buckets)
  {
    list := seq(newLength, _ => []);
    EmptyTotal(list);
    for i := 0 to |buckets|
      invariant Hashed(list) && |list| == newLength
      invariant ItemsOf(list) == ItemsOf(buckets[..i]) && Total(list) == Total(buckets[..i])
    {
      list := RehashChain(buckets, i, list);
      assert buckets[..i + 1][..i] == buckets[..i];
    }
    assert buckets[..|buckets|] == buckets;
  }

  /** Move one chain over, item by item, to the front of the new chains. */
  method RehashChain(buckets: Buckets, c: nat, list: Buckets) returns (list': Buckets)
    requires Hashed(buckets) && SameKeySameHash(ItemsOf(buckets)) && c < |buckets| && Hashed(list)
    requires ItemsOf(list) == ItemsOf(buckets[..c])
    ensures Hashed(list') && |list'| == |list| && ItemsOf(list') == ItemsOf(buckets[..c + 1])
    ensures Total(list') == Total(list) + |buckets[c]|
  {
    list' := list;
    for i := 0 to |buckets[c]|
      invariant Hashed(list') && |list'| == |list| && Total(list') == Total(list) + i
      invariant ItemsOf(list') == ItemsOf(buckets[..c]) + ChainItems(buckets[c][..i])
    {
      var h := buckets[c][i];
      var b := h.hash % |list|;
      NotYetMoved(buckets, c, i);
      ChainPrefixed(list', b, h);
      list' := list'[b := [h] + list'[b]];
      assert buckets[c][..i + 1] == buckets[c][..i] + [h];
    }
    ChainAdded(buckets, c);
  }

  ghost function ChainItems(chain: seq<Item>): set<Item> { set x | x in chain }

  lemma EmptyTotal(list: Buckets)
    requires forall b :: 0 <= b < |list| ==> list[b] == []
    ensures Total(list) == 0 && ItemsOf(list) == {}
  {
  }

  lemma ChainAdded(buckets: Buckets, c: nat)
    requires c < |buckets|
    ensures ItemsOf(buckets[..c + 1]) == ItemsOf(buckets[..c]) + ChainItems(buckets[c])
    ensures ChainItems(buckets[c][..|buckets[c]|]) == ChainItems(buckets[c])
  {
    var front := buckets[..c + 1];
    forall x | x in ChainItems(buckets[c]) ensures x in ItemsOf(front) {
      var i :| 0 <= i < |buckets[c]| && buckets[c][i] == x;
      assert front[c][i] == x;
    }
    forall x | x in ItemsOf(buckets[..c]) ensures x in ItemsOf(front) {
      var b, i :| 0 <= b < c && 0 <= i < |buckets[b]| && buckets[..c][b][i] == x;
      assert front[b][i] == x;
    }
    forall x | x in ItemsOf(front) ensures x in ItemsOf(buckets[..c]) + ChainItems(buckets[c]) {
      var b, i :| 0 <= b < |front| && 0 <= i < |front[b]| && front[b][i] == x;
      if b < c { assert buckets[..c][b][i] == x; }
    }
    assert buckets[c][..|buckets[c]|] == buckets[c];
  }

  /** The next item's key is none of those moved already. */
  lemma NotYetMoved(buckets: Buckets, c: nat, i: nat)
    requires Hashed(buckets) && SameKeySameHash(ItemsOf(buckets)) && c < |buckets| && i < |buckets[c]|
    ensures forall x :: x in ItemsOf(buckets[..c]) + ChainItems(buckets[c][..i]) ==> x.key != buckets[c][i].key
  {
    assert buckets[c][i] in ItemsOf(buckets);
    forall x | x in ItemsOf(buckets[..c]) ensures x.key != buckets[c][i].key {
      var b, j :| 0 <= b < c && 0 <= j < |buckets[b]| && buckets[..c][b][j] == x;
      assert buckets[b][j] == x;
      assert x in ItemsOf(buckets);
    }
  }

  lemma ChainReplaced(buckets: Buckets, b: nat, i: nat, h: Item)
    requires Hashed(buckets) && b < |buckets| && i < |buckets[b]| && h.hash % |buckets| == b
             && h.key == buckets[b][i].key
    ensures var buckets' := buckets[b := buckets[b][i := h]];
            && Hashed(buckets') && Total(buckets') == Total(buckets)
            && ItemsOf(buckets') == ItemsOf(buckets) - {buckets[b][i]} + {h}
  {
    var chain := buckets[b];
    var chain' := chain[i := h];
    forall x ensures x in chain' <==> (x in chain && x !in {chain[i]}) || x in {h} {
      if x in chain && x != chain[i] {
        var j :| 0 <= j < |chain| && chain[j] == x;
        assert chain'[j] == x;
      }
      assert chain'[i] == h;
    }
    ItemsChange(buckets, b, chain', {chain[i]}, {h});
    TotalChanges(buckets, b, chain');
  }

  lemma ChainExtended(buckets: Buckets, b: nat, h: Item)
    requires Hashed(buckets) && b < |buckets| && h.hash % |buckets| == b
    requires forall j :: 0 <= j < |buckets[b]| ==> buckets[b][j].key != h.key
    ensures var buckets' := buckets[b := buckets[b] + [h]];
            Hashed(buckets') && Total(buckets') == Total(buckets) + 1 && ItemsOf(buckets') == ItemsOf(buckets) + {h}
  {
    ItemsChange(buckets, b, buckets[b] + [h], {}, {h});
    TotalChanges(buckets, b, buckets[b] + [h]);
  }

  lemma ChainPrefixed(buckets: Buckets, b: nat, h: Item)
    requires Hashed(buckets) && b < |buckets| && h.hash % |buckets| == b
    requires forall x :: x in ItemsOf(buckets) ==> x.key != h.key
    ensures var buckets' := buckets[b := [h] + buckets[b]];
            Hashed(buckets') && Total(buckets') == Total(buckets) + 1 && ItemsOf(buckets') == ItemsOf(buckets) + {h}
  {
    forall j | 0 <= j < |buckets[b]| ensures buckets[b][j].key != h.key { assert buckets[b][j] in ItemsOf(buckets); }
    ItemsChange(buckets, b, [h] + buckets[b], {}, {h});
    TotalChanges(buckets, b, [h] + buckets[b]);
  }

  lemma ChainShortened(buckets: Buckets, b: nat, i: nat)
    requires Hashed(buckets) && b < |buckets| && i < |buckets[b]|
    ensures var buckets' := buckets[b := buckets[b][..i] + buckets[b][i + 1..]];
            && Hashed(buckets') && Total(buckets') == Total(buckets) - 1
            && ItemsOf(buckets') == ItemsOf(buckets) - {buckets[b][i]}
  {
    var chain := buckets[b];
    var chain' := chain[..i] + chain[i + 1..];
    assert forall x :: x in chain' <==> (x in chain && x !in {chain[i]}) || x in {};
    ItemsChange(buckets, b, chain', {chain[i]}, {});
    TotalChanges(buckets, b, chain');
  }
}
