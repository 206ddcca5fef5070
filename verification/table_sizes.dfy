/** How large the tables of a few short entries are: what TableBuilder's own rules make of
    user keys of one byte, with the default options but without compression or filters. */
module TableSizes {
  import opened InternalKeys
  import opened Coding
  import opened Blocks
  import opened KeyOrder
  import opened TableFormat
  import opened TableLayout

  /** One byte for a user key, in order. */
  function UserByte(k: UserKey): Byte {
    if k <= 1.0 then 97 else if k <= 1.5 then 99 else if k <= 1.7 then 100 else if k <= 2.0 then 101 else 102
  }

  lemma InOrder(a: UserKey, b: UserKey)
    ensures a <= b ==> UserByte(a) <= UserByte(b)
    ensures UserByte(1.0) < UserByte(1.5) < UserByte(1.7) < UserByte(2.0) < UserByte(3.0)
  {
  }

  function ValueBytes(op: Op): Bytes {
    match op case Delete => [] case Put(v) => seq(|v|, i requires 0 <= i < |v| => v[i] as int % 256)
  }

  /** The pair that stores the entry. */
  function Encoded(e: Entry): Pair { (WithTag([UserByte(e.ukey)], Low64(PackedTag(e))), ValueBytes(e.op)) }

  function EncodedAll(es: seq<Entry>): (ps: seq<Pair>)
    ensures |ps| == |es|
  {
    seq(|es|, i requires 0 <= i < |es| => Encoded(es[i]))
  }

  const DEFAULTS := Options(Bytewise(), None, [], 16, 4096, false, (bs: Bytes) =>
                            0, Codec((bs: Bytes) => None, (bs: Bytes) => None))

  /** FileSize() after these entries have been added, and after Finish. */
  function SizeOf(es: seq<Entry>): nat { SizeSoFar(DEFAULTS, EncodedAll(es)) }
  function FileSizeOf(es: seq<Entry>): nat { TableSize(DEFAULTS, EncodedAll(es)) }

  // ---- lengths ----

  function VarintLength(v: nat): nat { if v < 128 then 1 else 1 + VarintLength(v / 128) }

  lemma {:induction false} VarintLengthIs(v: nat)
    ensures |Varint(v)| == VarintLength(v)
  {
    if v >= 128 { VarintLengthIs(v / 128); }
  }

  lemma EntryLength(shared: nat, key: Bytes, value: Bytes)
    requires shared <= |key| < 128
    ensures |EntryBytes(shared, key, value)| == 2 + VarintLength(|value|) + |key| - shared + |value|
  {
    VarintLengthIs(shared);
    VarintLengthIs(|key| - shared);
    VarintLengthIs(|value|);
  }

  /** The key bytes that an entry leaves out: none, or the user key that its predecessor has too. */
  function Repeated(last: Entry, e: Entry): (n: nat)
    ensures n <= 1
  { if UserByte(last.ukey) == UserByte(e.ukey) then 1 else 0 }

  lemma KeyIs(e: Entry)
    ensures |Encoded(e).0| == 9 && Encoded(e).0[0] == UserByte(e.ukey) && Encoded(e).0[1] == TypeTag(e.op)
    ensures UserPart(Encoded(e).0) == [UserByte(e.ukey)]
  {
    var tag := Low64(PackedTag(e));
    Parts([UserByte(e.ukey)], tag);
    TypeIsLowByte(e.sequence, TypeTag(e.op), tag);
    LowByteFirst(tag);
    hide PackedTag;
    hide Low64;
    hide Fixed64;
    hide TypeTag;
    hide UserPart;
    hide Tag;
    assert Encoded(e).0 == [UserByte(e.ukey)] + Fixed64(tag);
  }

  lemma LowByteFirst(w: Word64)
    ensures Fixed64(w)[0] == w % 0x1_0000_0000 % 256
  {
  }

  lemma TypeIsLowByte(s: nat, tag: nat, w: Word64)
    requires tag < 256 && w == Low64(s * 256 + tag)
    ensures w % 0x1_0000_0000 % 256 == tag
  {
    var x, y := s * 256 + tag, w / 0x1_0000_0000;
    var q := x / 0x1_0000_0000_0000_0000;
    assert w == 256 * (s - 0x100_0000_0000_0000 * q) + tag;
    assert w % 0x1_0000_0000 == 256 * (s - 0x100_0000_0000_0000 * q - 0x100_0000 * y) + tag;
  }

  /** The keys differ in their first byte, or in the one behind it. */
  ghost predicate Distinguishable(a: Entry, b: Entry) {
    UserByte(a.ukey) == UserByte(b.ukey) ==> TypeTag(a.op) != TypeTag(b.op)
  }

  lemma SharesUserKey(last: Entry, e: Entry)
    requires Distinguishable(last, e)
    ensures SharedPrefix(Encoded(last).0, Encoded(e).0) == Repeated(last, e)
  {
    KeyIs(last);
    KeyIs(e);
    var a, b := Encoded(last).0, Encoded(e).0;
    hide Encoded;
    PrefixIsUnique(a, b, Repeated(last, e));
  }

  /** The length of an entry in a block, after another one or at its start. */
  function Space(repeated: nat, e: Entry): nat
    requires repeated <= 1
  { 2 + VarintLength(|ValueBytes(e.op)|) + 9 - repeated + |ValueBytes(e.op)| }

  lemma SpaceLess(repeated: nat, e: Entry)
    requires repeated <= 1
    ensures Space(repeated, e) <= Space(0, e)
  {
    hide VarintLength;
    hide ValueBytes;
  }

  lemma BlockOne(e: Entry)
    ensures FillOf(16, [Encoded(e)]) == Fill(Space(0, e), 1, 1) && BlockSize(16, [Encoded(e)]) == Space(0, e) + 8
  {
    KeyIs(e);
    assert [Encoded(e)][..0] == [];
    EntryLength(0, Encoded(e).0, Encoded(e).1);
    hide EntryBytes;
  }

  lemma BlockTwo(d: Entry, e: Entry)
    requires Distinguishable(d, e)
    ensures BlockSize(16, [Encoded(d), Encoded(e)]) == Space(0, d) + Space(Repeated(d, e), e) + 8
  {
    hide Distinguishable;
    BlockOne(d);
    SharesUserKey(d, e);
    KeyIs(e);
    EntryLength(Repeated(d, e), Encoded(e).0, Encoded(e).1);
    FillMore(16, [Encoded(d)], Encoded(e));
    assert [Encoded(d)] + [Encoded(e)] == [Encoded(d), Encoded(e)];
    hide EntryBytes;
    hide Encoded;
    hide FillOf;
  }

  /** A user key of one byte cannot be shortened. */
  lemma IndexKeys(a: Entry, b: Entry)
    ensures InternalSeparator(DEFAULTS.comparator, Encoded(a).0, Encoded(b).0) == Encoded(a).0
    ensures InternalSuccessor(DEFAULTS.comparator, Encoded(a).0) == Encoded(a).0
  {
    KeyIs(a);
    KeyIs(b);
    NothingShorter(DEFAULTS.comparator, Encoded(a).0, Encoded(b).0);
  }

  lemma NothingShorter(c: Comparator, a: Bytes, b: Bytes)
    requires c == Bytewise() && |UserPart(a)| == 1 == |UserPart(b)|
    ensures InternalSeparator(c, a, b) == a && InternalSuccessor(c, a) == a
  {
    var s, l := UserPart(a), UserPart(b);
    assert c.separator(s, l) == ShortestSeparator(s, l) && c.successor(s) == ShortSuccessor(s);
  }

  // ---- tables of up to three entries ----

  lemma NoPairs()
    ensures CutOf(DEFAULTS, []) == Cut(0, [], [], None) && BlockSize(16, []) == 8
  {
  }

  lemma IndexOne(key: Bytes, handle: Bytes)
    requires |key| == 9 && |handle| < 128
    ensures BlockSize(1, [(key, handle)]) == 20 + |handle|
  {
    FillMore(1, [], (key, handle));
    assert [] + [(key, handle)] == [(key, handle)];
    EntryLength(0, key, handle);
    hide EntryBytes;
  }

  lemma IndexTwo(key: Bytes, handle: Bytes, key2: Bytes, handle2: Bytes)
    requires |key| == |key2| == 9 && |handle| < 128 && |handle2| < 128
    ensures BlockSize(1, [(key, handle), (key2, handle2)]) == 32 + 4 + |handle| + |handle2|
  {
    IndexOne(key, handle);
    EntryLength(0, key2, handle2);
    FillMore(1, [(key, handle)], (key2, handle2));
    assert [(key, handle)] + [(key2, handle2)] == [(key, handle), (key2, handle2)];
    assert [(key, handle)][..0] == [];
    hide EntryBytes;
  }

  /** One more entry. */
  lemma Next(es: seq<Entry>, e: Entry, c: Cut) returns (next: Cut)
    requires CutOf(DEFAULTS, EncodedAll(es)) == c && (c.owed.Some? ==> es != [])
    ensures next == Cut(c.size, c.current + [Encoded(e)],
                        if c.owed == None then c.index else c.index + [(Encoded(es[|es| - 1]).0, c.owed.value)], None)
    ensures CutOf(DEFAULTS, EncodedAll(es + [e])) == if BlockSize(16, next.current) >= 4096
            then BlockCut(DEFAULTS, next) else next
  {
    hide CutOf;
    hide BlockSize;
    hide Encoded;
    hide BlockCut;
    hide InternalSeparator;
    hide InternalSuccessor;
    var pairs := EncodedAll(es);
    assert EncodedAll(es + [e]) == pairs + [Encoded(e)];
    CutMore(DEFAULTS, pairs, Encoded(e));
    next := Cut(c.size, c.current + [Encoded(e)], if c.owed == None then c.index
                else c.index + [(LastKey(pairs), c.owed.value)], None);
    if es != [] {
      IndexKeys(es[|es| - 1], e);
      assert LastKey(pairs) == Encoded(es[|es| - 1]).0;
    }
  }

  function HandleLength(offset: nat, size: nat): nat { VarintLength(offset) + VarintLength(size) }

  lemma HandleLengthIs(offset: nat, size: nat)
    ensures |Varint(offset) + Varint(size)| == HandleLength(offset, size)
  {
    VarintLengthIs(offset);
    VarintLengthIs(size);
  }

  /** The parts of a table behind its data: an empty metaindex block, the index, the footer. */
  const REST := 8 + TRAILER + TRAILER + FOOTER

  lemma OneBlockTable(es: seq<Entry>, c: Cut, size: nat)
    requires es != [] && CutOf(DEFAULTS, EncodedAll(es)) == c && c.index == [] && c.owed == None && c.size == 0
    requires c.current != [] && BlockSize(16, c.current) == size && size < 4096
    ensures TableSize(DEFAULTS, EncodedAll(es)) == size + TRAILER + 20 + HandleLength(0, size) + REST
  {
    hide CutOf;
    hide BlockSize;
    hide Encoded;
    hide Varint;
    hide InternalSuccessor;
    hide VarintLength;
    var last := es[|es| - 1];
    var key, handle := Encoded(last).0, Varint(0) + Varint(size);
    IndexKeys(last, last);
    KeyIs(last);
    ShortHandles(0, size);
    NoPairs();
    IndexOne(key, handle);
    assert LastKey(EncodedAll(es)) == key;
    assert [] + [(key, handle)] == [(key, handle)];
  }

  lemma TwoBlockTable(es: seq<Entry>, c: Cut, d: Cut, first: Entry, size0: nat, size: nat)
    requires es != [] && CutOf(DEFAULTS, EncodedAll(es)) == c
             && c == (if BlockSize(16, d.current) >= 4096 then BlockCut(DEFAULTS, d) else d)
    requires d == Cut(size0 + TRAILER, d.current, [(Encoded(first).0, Varint(0) + Varint(size0))], None)
             && d.current != []
    requires BlockSize(16, d.current) == size && size0 < 0x1000_0000 && size < 0x1000_0000
    ensures TableSize(DEFAULTS, EncodedAll(es))
         == size0 + size + 2 * TRAILER + 36 + HandleLength(0, size0) + HandleLength(size0 + TRAILER, size) + REST
  {
    hide CutOf;
    hide BlockSize;
    hide Encoded;
    hide Varint;
    hide InternalSuccessor;
    hide VarintLength;
    hide HandleLength;
    var last := es[|es| - 1];
    var key, handle, key2, handle2 := Encoded(first).0, Varint(0) + Varint(size0), Encoded(last).0,
        Varint(size0 + TRAILER) + Varint(size);
    IndexKeys(last, last);
    KeyIs(first);
    KeyIs(last);
    ShortHandles(0, size0);
    ShortHandles(size0 + TRAILER, size);
    NoPairs();
    IndexTwo(key, handle, key2, handle2);
    assert LastKey(EncodedAll(es)) == key2;
    assert [(key, handle)] + [(key2, handle2)] == [(key, handle), (key2, handle2)];
  }

  lemma ShortHandles(offset: nat, size: nat)
    requires offset < 0x2000_0000 && size < 0x2000_0000
    ensures |Varint(offset) + Varint(size)| == HandleLength(offset, size) && HandleLength(offset, size) < 128
  {
    HandleLengthIs(offset, size);
    ShortVarint(offset);
    ShortVarint(size);
  }

  lemma ShortVarint(v: nat)
    requires v < 0x2000_0000
    ensures VarintLength(v) <= 5
  {
    var a := v / 128;
    var b := a / 128;
    var c := b / 128;
    assert VarintLength(c) <= 2;
    assert VarintLength(b) <= 3;
    assert VarintLength(a) <= 4;
  }

  /** One entry in one block. */
  lemma TableOne(e: Entry)
    requires Space(0, e) + 8 < 4096
    ensures CutOf(DEFAULTS, EncodedAll([e])) == Cut(0, [Encoded(e)], [], None)
    ensures FileSizeOf([e]) == Space(0, e) + 8 + TRAILER + 20 + HandleLength(0, Space(0, e) + 8) + REST
  {
    NoPairs();
    BlockOne(e);
    assert EncodedAll([]) == [] && [] + [e] == [e] && [] + [Encoded(e)] == [Encoded(e)];
    hide CutOf;
    hide BlockSize;
    hide Encoded;
    var c := Next([], e, Cut(0, [], [], None));
    OneBlockTable([e], c, Space(0, e) + 8);
  }

  /** Two entries in one block. */
  lemma TableTwo(a: Entry, b: Entry)
    requires Distinguishable(a, b) && Space(0, a) + Space(0, b) + 8 < 4096
    ensures SizeOf([a]) == SizeOf([a, b]) == 0
    ensures var size := Space(0, a) + Space(Repeated(a, b), b) + 8;
            FileSizeOf([a, b]) == size + TRAILER + 20 + HandleLength(0, size) + REST
  {
    hide Distinguishable;
    hide VarintLength;
    hide Space;
    hide Repeated;
    hide CutOf;
    hide BlockSize;
    hide Encoded;
    hide TableSize;
    SpaceLess(Repeated(a, b), b);
    TableOne(a);
    BlockTwo(a, b);
    assert [a] + [b] == [a, b] && [Encoded(a)] + [Encoded(b)] == [Encoded(a), Encoded(b)];
    var d := Next([a], b, Cut(0, [Encoded(a)], [], None));
    OneBlockTable([a, b], d, Space(0, a) + Space(Repeated(a, b), b) + 8);
  }

  lemma LongBlock(a: Entry)
    requires 4096 <= Space(0, a) + 8
    ensures CutOf(DEFAULTS, EncodedAll([a]))
         == Cut(Space(0, a) + 8 + TRAILER, [], [], Some(Varint(0) + Varint(Space(0, a) + 8)))
  {
    hide CutOf;
    hide BlockSize;
    hide Encoded;
    hide Varint;
    NoPairs();
    BlockOne(a);
    assert EncodedAll([]) == [] && [] + [a] == [a] && [] + [Encoded(a)] == [Encoded(a)];
    var c0 := Next([], a, Cut(0, [], [], None));
  }

  /** An entry in a new block behind a finished one. */
  lemma BehindBlock(es: seq<Entry>, b: Entry, size: nat, handle: Bytes)
    requires es != [] && CutOf(DEFAULTS, EncodedAll(es)) == Cut(size, [], [], Some(handle)) && Space(0, b) + 8 < 4096
    ensures CutOf(DEFAULTS, EncodedAll(es + [b])) == Cut(size, [Encoded(b)], [(Encoded(es[|es| - 1]).0, handle)], None)
  {
    BlockOne(b);
    hide CutOf;
    hide BlockSize;
    hide Encoded;
    assert [] + [Encoded(b)] == [Encoded(b)]
           && [] + [(Encoded(es[|es| - 1]).0, handle)] == [(Encoded(es[|es| - 1]).0, handle)];
    var c1 := Next(es, b, Cut(size, [], [], Some(handle)));
  }

  lemma TwoMoreBlock(es: seq<Entry>, b: Entry, d: Entry, size0: nat)
    requires es != [] && CutOf(DEFAULTS, EncodedAll(es))
             == Cut(size0 + TRAILER, [], [], Some(Varint(0) + Varint(size0)))
    requires Distinguishable(b, d) && size0 < 0x1000_0000 && Space(0, b) + 8 < 4096
             && Space(Repeated(b, d), d) < 0x1_0000
    ensures SizeOf(es) == SizeOf(es + [b]) == size0 + TRAILER
    ensures var size := Space(0, b) + Space(Repeated(b, d), d) + 8;
            && SizeOf(es + [b] + [d]) == size0 + TRAILER + (if size >= 4096 then size + TRAILER else 0)
            && FileSizeOf(es + [b] + [d])
               == size0 + size + 2 * TRAILER + 36 + HandleLength(0, size0) + HandleLength(size0 + TRAILER, size) + REST
  {
    hide Distinguishable;
    hide CutOf;
    hide BlockSize;
    hide Encoded;
    hide TableSize;
    hide Varint;
    hide VarintLength;
    hide HandleLength;
    hide Space;
    hide Repeated;
    var first, size, handle := es[|es| - 1], Space(0, b) + Space(Repeated(b, d), d) + 8, Varint(0) + Varint(size0);
    BehindBlock(es, b, size0 + TRAILER, handle);
    BlockTwo(b, d);
    assert [Encoded(b)] + [Encoded(d)] == [Encoded(b), Encoded(d)];
    var c2 := Next(es + [b], d, Cut(size0 + TRAILER, [Encoded(b)], [(Encoded(first).0, handle)], None));
    TwoBlockTable(es + [b] + [d], CutOf(DEFAULTS, EncodedAll(es + [b] + [d])), c2, first, size0, size);
  }

  /** A block of one long entry, then two more. */
  lemma TableOneTwo(a: Entry, b: Entry, d: Entry)
    requires Distinguishable(b, d) && 4096 <= Space(0, a) + 8 < 0x1000_0000 && Space(0, b) + 8 < 4096
             && Space(0, d) < 0x1_0000
    ensures SizeOf([a]) == SizeOf([a, b]) == Space(0, a) + 8 + TRAILER
    ensures var size0, size := Space(0, a) + 8, Space(0, b) + Space(Repeated(b, d), d) + 8;
            && SizeOf([a, b, d]) == size0 + TRAILER + (if size >= 4096 then size + TRAILER else 0)
            && FileSizeOf([a, b, d]) == size0 + size + 2 * TRAILER + 36 + HandleLength(0, size0)
               + HandleLength(size0 + TRAILER, size) + REST
  {
    hide Distinguishable;
    hide CutOf;
    hide Encoded;
    hide FileSizeOf;
    hide Varint;
    hide VarintLength;
    hide HandleLength;
    hide Space;
    hide Repeated;
    SpaceLess(Repeated(b, d), d);
    LongBlock(a);
    assert [a] + [b] == [a, b] && [a, b] + [d] == [a, b, d];
    TwoMoreBlock([a], b, d, Space(0, a) + 8);
  }

  lemma FullBlock(a: Entry, b: Entry)
    requires Distinguishable(a, b) && Space(0, a) + 8 < 4096 && Space(0, a) + Space(Repeated(a, b), b) + 8 >= 4096
    ensures var size := Space(0, a) + Space(Repeated(a, b), b) + 8;
            CutOf(DEFAULTS, EncodedAll([a, b])) == Cut(size + TRAILER, [], [], Some(Varint(0) + Varint(size)))
    ensures SizeOf([a]) == 0
  {
    hide Distinguishable;
    hide Varint;
    hide VarintLength;
    hide Space;
    hide Repeated;
    hide InternalSeparator;
    hide CutOf;
    hide BlockSize;
    hide Encoded;
    hide TableSize;
    TableOne(a);
    BlockTwo(a, b);
    assert [a] + [b] == [a, b] && [Encoded(a)] + [Encoded(b)] == [Encoded(a), Encoded(b)];
    var c1 := Next([a], b, Cut(0, [Encoded(a)], [], None));
  }

  lemma OneMoreBlock(es: seq<Entry>, d: Entry, size0: nat)
    requires es != [] && CutOf(DEFAULTS, EncodedAll(es))
             == Cut(size0 + TRAILER, [], [], Some(Varint(0) + Varint(size0)))
    requires size0 < 0x1000_0000 && Space(0, d) + 8 < 4096
    ensures SizeOf(es) == SizeOf(es + [d]) == size0 + TRAILER
    ensures var size := Space(0, d) + 8;
            FileSizeOf(es + [d]) == size0 + size + 2 * TRAILER + 36 + HandleLength(0, size0)
                + HandleLength(size0 + TRAILER, size) + REST
  {
    hide Distinguishable;
    hide Varint;
    hide VarintLength;
    hide HandleLength;
    hide Space;
    hide CutOf;
    hide BlockSize;
    hide Encoded;
    hide TableSize;
    var first, size, handle := es[|es| - 1], Space(0, d) + 8, Varint(0) + Varint(size0);
    BehindBlock(es, d, size0 + TRAILER, handle);
    BlockOne(d);
    var c2 := Cut(size0 + TRAILER, [Encoded(d)], [(Encoded(first).0, handle)], None);
    TwoBlockTable(es + [d], c2, c2, first, size0, size);
  }

  /** A block of two entries, then one more. */
  lemma TableTwoOne(a: Entry, b: Entry, d: Entry)
    requires Distinguishable(a, b) && Space(0, a) + 8 < 4096 && Space(0, b) < 0x1_0000 && Space(0, d) + 8 < 4096
    requires Space(0, a) + Space(Repeated(a, b), b) + 8 >= 4096
    ensures SizeOf([a]) == 0
    ensures var size0, size := Space(0, a) + Space(Repeated(a, b), b) + 8, Space(0, d) + 8;
            && SizeOf([a, b]) == SizeOf([a, b, d]) == size0 + TRAILER
            && FileSizeOf([a, b, d]) == size0 + size + 2 * TRAILER + 36 + HandleLength(0, size0)
               + HandleLength(size0 + TRAILER, size) + REST
  {
    hide Distinguishable;
    hide Varint;
    hide VarintLength;
    hide HandleLength;
    hide Space;
    hide Repeated;
    hide CutOf;
    hide Encoded;
    hide FileSizeOf;
    SpaceLess(Repeated(a, b), b);
    FullBlock(a, b);
    assert [a, b] + [d] == [a, b, d];
    OneMoreBlock([a, b], d, Space(0, a) + Space(Repeated(a, b), b) + 8);
  }
}
