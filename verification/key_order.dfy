/** Orders on encoded keys and the short keys of index blocks: BytewiseComparator
    (util/comparator.cc) and InternalKeyComparator (db/dbformat.cc) on bytes. */
module KeyOrder {
  import opened Coding
  import opened Blocks

  // ---- bytewise order ----

  /** Slice::compare: memcmp on the common length, then the lengths. */
  predicate BytesLess(a: Bytes, b: Bytes) {
    var n := SharedPrefix(a, b);
    n < |b| && (n == |a| || a[n] < b[n])
  }

  /** The first n bytes agree and b continues with a greater byte, or only b continues. */
  predicate LessFrom(a: Bytes, b: Bytes, n: nat) {
    n <= |a| && n < |b| && a[..n] == b[..n] && (n < |a| ==> a[n] < b[n])
  }

  lemma LessIffFrom(a: Bytes, b: Bytes, n: nat)
    requires LessFrom(a, b, n)
    ensures BytesLess(a, b) && !BytesLess(b, a) && SharedPrefix(a, b) == n
  {
    PrefixIsUnique(a, b, n);
    PrefixIsUnique(b, a, n);
  }

  lemma BytesLessTransitive(a: Bytes, b: Bytes, c: Bytes)
    requires BytesLess(a, b) && BytesLess(b, c)
    ensures BytesLess(a, c)
  {
    var m, n := SharedPrefix(a, b), SharedPrefix(b, c);
    var k := if m < n then m else n;
    assert a[..k] == a[..m][..k] == b[..m][..k] == b[..k];
    assert b[..k] == b[..n][..k] == c[..n][..k] == c[..k];
    if m < n {
      assert b[m] == b[..n][m] == c[..n][m] == c[m];
    } else if n < m {
      assert a[n] == a[..m][n] == b[..m][n] == b[n];
    }
    assert LessFrom(a, c, k);
    LessIffFrom(a, c, k);
  }

  lemma BytesLessTotal(a: Bytes, b: Bytes)
    ensures BytesLess(a, b) || BytesLess(b, a) || a == b
    ensures !(BytesLess(a, b) && BytesLess(b, a)) && !BytesLess(a, a)
  {
    var n := SharedPrefix(a, b);
    PrefixIsUnique(b, a, n);
    PrefixIsUnique(a, a, |a|);
    if n == |a| == |b| { assert a == a[..n] == b[..n] == b; }
  }

  /** FindShortestSeparator: the first differing byte, raised by one, if there is room. */
  function ShortestSeparator(start: Bytes, limit: Bytes): Bytes {
    var n := SharedPrefix(start, limit);
    if n < |start| && n < |limit| && start[n] < 255 && start[n] + 1 < limit[n] then start[..n] + [start[n] + 1]
    else start
  }

  method FindShortestSeparator(start: Bytes, limit: Bytes) returns (sep: Bytes)
    ensures sep == ShortestSeparator(start, limit)
  {
    sep := start;
    var minLength := if |start| < |limit| then |start| else |limit|;
    var diffIndex := 0;
    while diffIndex < minLength && start[diffIndex] == limit[diffIndex]
      invariant diffIndex <= minLength && start[..diffIndex] == limit[..diffIndex]
    {
      diffIndex := diffIndex + 1;
    }
    PrefixIsUnique(start, limit, diffIndex);
    if diffIndex < minLength {
      var diffByte := start[diffIndex];
      if diffByte < 255 && diffByte + 1 < limit[diffIndex] {
        sep := sep[diffIndex := diffByte + 1][..diffIndex + 1];
      }
    }
  }

  /** The separator lies in [start, limit) when that is not empty, and is `start` otherwise. */
  lemma SeparatorBetween(start: Bytes, limit: Bytes)
    ensures var sep := ShortestSeparator(start, limit);
            |sep| <= |start| && !BytesLess(sep, start)
            && (if BytesLess(start, limit) then BytesLess(sep, limit) else sep == start)
  {
    var sep, n := ShortestSeparator(start, limit), SharedPrefix(start, limit);
    BytesLessTotal(start, start);
    if sep != start {
      assert sep[..n] == start[..n];
      LessIffFrom(start, sep, n);
      LessIffFrom(sep, limit, n);
    }
  }

  /** The keys first differ at n, and by more than one there. */
  ghost predicate RoomAt(start: Bytes, limit: Bytes, n: nat) {
    n < |start| && n < |limit| && start[..n] == limit[..n] && start[n] as int + 1 < limit[n] as int
  }

  /** The separator is another key than `start` exactly if there is such room, and a shorter
      one exactly if there is some before the last byte of `start`. */
  lemma SeparatorChangesIff(start: Bytes, limit: Bytes)
    ensures ShortestSeparator(start, limit) != start <==> exists n: nat :: RoomAt(start, limit, n)
    ensures |ShortestSeparator(start, limit)| < |start|
            <==> exists n: nat :: n + 1 < |start| && RoomAt(start, limit, n)
  {
    var n := SharedPrefix(start, limit);
    forall m: nat | RoomAt(start, limit, m) ensures m == n { PrefixIsUnique(start, limit, m); }
    if RoomAt(start, limit, n) { assert ShortestSeparator(start, limit)[n] != start[n]; }
  }

  /** A separator other than `start` is as short as a key from `start` to `limit` can be, and
      the least of that length behind `start`. */
  lemma SeparatorIsShortest(start: Bytes, limit: Bytes, k: Bytes)
    requires var sep := ShortestSeparator(start, limit); sep != start && BytesLess(k, limit)
    ensures !BytesLess(k, start) ==> |k| >= |ShortestSeparator(start, limit)|
    ensures BytesLess(start, k) && |k| == |ShortestSeparator(start, limit)| ==>
              !BytesLess(k, ShortestSeparator(start, limit))
  {
    var sep, n := ShortestSeparator(start, limit), SharedPrefix(start, limit);
    var m, j := SharedPrefix(k, limit), SharedPrefix(k, start);
    if m < n && m < |k| {
      assert k[m] < limit[m] && limit[m] == limit[..n][m] == start[..n][m] == start[m];
      assert k[..m] == limit[..n][..m] == start[..n][..m] == start[..m];
      assert LessFrom(k, start, m);
      LessIffFrom(k, start, m);
    } else if |k| <= n {
      assert k == k[..|k|] == limit[..n][..|k|] == start[..n][..|k|] == start[..|k|];
      assert LessFrom(k, start, |k|);
      LessIffFrom(k, start, |k|);
    } else {
      assert k[..n] == limit[..m][..n] == limit[..n] == start[..n] == sep[..n];
      if |k| == |sep| { SameLengthNext(start, k, sep, n); }
    }
  }

  lemma SameLengthNext(start: Bytes, k: Bytes, sep: Bytes, n: nat)
    requires n < |start| && |k| == |sep| == n + 1 && start[..n] == k[..n] == sep[..n]
    requires sep[n] as int == start[n] as int + 1
    ensures BytesLess(start, k) ==> !BytesLess(k, sep)
  {
    if k[n] < start[n] {
      assert LessFrom(k, start, n);
      LessIffFrom(k, start, n);
    } else if k[n] == start[n] {
      assert k == k[..n] + [k[n]];
      assert start[..n + 1] == start[..n] + [start[n]];
      ExtendsNotLess(start, k);
    } else if k[n] == sep[n] {
      assert k == k[..n] + [k[n]] && sep == sep[..n] + [sep[n]];
      BytesLessTotal(k, sep);
    } else {
      assert LessFrom(sep, k, n);
      LessIffFrom(sep, k, n);
    }
  }

  lemma ExtendsNotLess(a: Bytes, b: Bytes)
    requires b <= a
    ensures !BytesLess(a, b)
  {
    PrefixIsUnique(a, b, |b|);
  }

  /** FindShortSuccessor: the first byte that can be raised, raised. */
  function ShortSuccessor(key: Bytes): Bytes {
    if key == [] then []
    else if key[0] != 255 then [key[0] + 1]
    else
      var rest := ShortSuccessor(key[1..]);
      [key[0]] + rest
  }

  method FindShortSuccessor(key: Bytes) returns (succ: Bytes)
    ensures succ == ShortSuccessor(key)
  {
    var i := 0;
    while i < |key|
      invariant i <= |key| && ShortSuccessor(key) == key[..i] + ShortSuccessor(key[i..])
    {
      var byte := key[i];
      if byte != 255 { return key[i := byte + 1][..i + 1]; }
      assert key[i..][1..] == key[i + 1..];
      assert key[..i] + ShortSuccessor(key[i..]) == key[..i + 1] + ShortSuccessor(key[i + 1..]);
      i := i + 1;
    }
    return key;  // a run of 0xff
  }

  lemma {:induction false} SuccessorNotLess(key: Bytes)
    ensures |ShortSuccessor(key)| <= |key| && !BytesLess(ShortSuccessor(key), key)
    decreases |key|
  {
    var succ := ShortSuccessor(key);
    if key == [] {
    } else if key[0] != 255 {
      assert LessFrom(key, succ, 0);
      LessIffFrom(key, succ, 0);
    } else {
      SuccessorNotLess(key[1..]);
      var rest := ShortSuccessor(key[1..]);
      assert succ[1..] == rest;
      assert SharedPrefix(succ, key) == 1 + SharedPrefix(rest, key[1..]);
    }
  }

  /** The successor is another key exactly if not all bytes are 255; it is then as short as
      a key not before this one can be. */
  lemma {:induction false} SuccessorChangesIff(key: Bytes, k: Bytes)
    ensures ShortSuccessor(key) != key <==> exists n: nat :: n < |key| && key[n] != 255
    ensures ShortSuccessor(key) != key && !BytesLess(k, key) ==> |k| >= |ShortSuccessor(key)|
    decreases |key|
  {
    if key == [] {
    } else if key[0] != 255 {
      if k == [] {
        assert LessFrom(k, key, 0);
        LessIffFrom(k, key, 0);
      }
      assert ShortSuccessor(key)[0] != key[0];
    } else {
      assert ShortSuccessor(key)[1..] == ShortSuccessor(key[1..]) && key == [key[0]] + key[1..];
      if k == [] {
        SuccessorChangesIff(key[1..], []);
        assert LessFrom(k, key, 0);
        LessIffFrom(k, key, 0);
      } else {
        SuccessorChangesIff(key[1..], k[1..]);
        if k[0] < 255 {
          assert LessFrom(k, key, 0);
          LessIffFrom(k, key, 0);
        } else {
          assert SharedPrefix(k, key) == 1 + SharedPrefix(k[1..], key[1..]);
        }
      }
      forall n: nat | n < |key| && key[n] != 255 ensures key[1..][n - 1] != 255 {}
      forall n: nat | n < |key[1..]| && key[1..][n] != 255 ensures key[n + 1] != 255 {}
    }
  }

  // ---- comparators ----

  /** A user comparator. */
  datatype Comparator = Comparator(less: (Bytes, Bytes) -> bool, separator: (Bytes, Bytes) -> Bytes,
                                   successor: Bytes -> Bytes)

  ghost predicate TotalOrder(less: (Bytes, Bytes) -> bool) {
    && Transitive(less)
    && (forall a :: !less(a, a))
    && forall a, b :: less(a, b) || less(b, a) || a == b
  }

  /** The promise of comparator.h, and that start == limit is not raised; nothing is
      asked of the successor, as its caller compares again. */
  ghost predicate Lawful(c: Comparator) {
    && TotalOrder(c.less)
    && forall s, l :: !c.less(l, s) && c.less(s, c.separator(s, l)) ==> c.less(c.separator(s, l), l)
  }

  function Bytewise(): Comparator {
    Comparator((a, b) => BytesLess(a, b), (s, l) => ShortestSeparator(s, l), k => ShortSuccessor(k))
  }

  lemma BytewiseIsLawful()
    ensures Lawful(Bytewise())
  {
    var c := Bytewise();
    forall x, y, z | c.less(x, y) && c.less(y, z) ensures c.less(x, z) { BytesLessTransitive(x, y, z); }
    forall a ensures !c.less(a, a) { BytesLessTotal(a, a); }
    forall a, b ensures c.less(a, b) || c.less(b, a) || a == b { BytesLessTotal(a, b); }
    forall s, l | !c.less(l, s) && c.less(s, c.separator(s, l)) ensures c.less(c.separator(s, l), l) {
      SeparatorBetween(s, l);
      BytesLessTotal(s, l);
    }
  }

  // ---- internal keys ----

  const SEEK_TAG: Word64 := 0xFF_FFFF_FFFF_FFFF * 256 + 1  // kMaxSequenceNumber with kValueTypeForSeek

  /** ExtractUserKey; the code asserts that the tag is there. */
  function UserPart(key: Bytes): Bytes { if |key| < 8 then [] else key[..|key| - 8] }

  function Tag(key: Bytes): Word64 { if |key| < 8 then 0 else DecodeFixed64(key[|key| - 8..]) }

  function WithTag(user: Bytes, tag: Word64): Bytes { user + Fixed64(tag) }

  lemma Parts(user: Bytes, tag: Word64)
    ensures UserPart(WithTag(user, tag)) == user && Tag(WithTag(user, tag)) == tag
  {
    var key := WithTag(user, tag);
    assert key[..|key| - 8] == user && key[|key| - 8..] == Fixed64(tag);
    Fixed64RoundTrip(tag);
  }

  /** InternalKeyComparator: user key ascending, then tag descending. */
  predicate InternalLess(c: Comparator, a: Bytes, b: Bytes) {
    c.less(UserPart(a), UserPart(b)) || (UserPart(a) == UserPart(b) && Tag(a) > Tag(b))
  }

  function InternalOrder(c: Comparator): (Bytes, Bytes) -> bool { (a, b) => InternalLess(c, a, b) }

  lemma InternalTransitive(c: Comparator)
    requires Lawful(c)
    ensures Transitive(InternalOrder(c)) && forall a :: !InternalOrder(c)(a, a)
  {
    var less := InternalOrder(c);
    forall x, y, z | less(x, y) && less(y, z) ensures less(x, z) {
      assert InternalLess(c, x, y) && InternalLess(c, y, z);
    }
  }

  /** FindShortestSeparator on internal keys: a shorter user key with the first of all tags. */
  function InternalSeparator(c: Comparator, start: Bytes, limit: Bytes): Bytes {
    var user := UserPart(start);
    var tmp := c.separator(user, UserPart(limit));
    if |tmp| < |user| && c.less(user, tmp) then WithTag(tmp, SEEK_TAG) else start
  }

  function InternalSuccessor(c: Comparator, key: Bytes): Bytes {
    var user := UserPart(key);
    var tmp := c.successor(user);
    if |tmp| < |user| && c.less(user, tmp) then WithTag(tmp, SEEK_TAG) else key
  }

  /** The separator is in [start, limit); and no key above `start` and up to the
      separator has the user key of `limit`. */
  lemma SeparatorSeparates(c: Comparator, start: Bytes, limit: Bytes)
    requires Lawful(c) && InternalLess(c, start, limit)
    ensures var sep := InternalSeparator(c, start, limit);
            && |sep| <= |start| && !InternalLess(c, sep, start) && InternalLess(c, sep, limit)
            && forall k :: InternalLess(c, start, k) && !InternalLess(c, sep, k) ==> UserPart(k) != UserPart(limit)
  {
    var sep, user := InternalSeparator(c, start, limit), UserPart(start);
    var tmp := c.separator(user, UserPart(limit));
    if sep != start {
      Parts(tmp, SEEK_TAG);
      assert !c.less(UserPart(limit), user);
      forall k | !InternalLess(c, sep, k) ensures UserPart(k) != UserPart(limit) {
        assert !c.less(tmp, UserPart(k));
      }
    }
  }

  /** The index entry gets shorter exactly when the user comparator finds a shorter user key
      behind that of `start`, and then has that key. */
  lemma SeparatorShortens(c: Comparator, start: Bytes, limit: Bytes)
    requires |start| >= 8
    ensures var sep, user := InternalSeparator(c, start, limit), start[..|start| - 8];
            var tmp := c.separator(user, UserPart(limit));
            && (|sep| < |start| <==> |tmp| < |user| && c.less(user, tmp))
            && (if |sep| < |start| then UserPart(sep) == tmp && Tag(sep) == SEEK_TAG else sep == start)
  {
    Parts(c.separator(UserPart(start), UserPart(limit)), SEEK_TAG);
  }

  lemma SuccessorShortens(c: Comparator, key: Bytes)
    requires |key| >= 8
    ensures var succ, user := InternalSuccessor(c, key), key[..|key| - 8];
            && (|succ| < |key| <==> |c.successor(user)| < |user| && c.less(user, c.successor(user)))
            && (if |succ| < |key| then UserPart(succ) == c.successor(user) && Tag(succ) == SEEK_TAG else succ == key)
  {
    Parts(c.successor(UserPart(key)), SEEK_TAG);
  }

  lemma SuccessorCovers(c: Comparator, key: Bytes)
    requires Lawful(c)
    ensures |InternalSuccessor(c, key)| <= |key| && !InternalLess(c, InternalSuccessor(c, key), key)
  {
    var tmp := c.successor(UserPart(key));
    Parts(tmp, SEEK_TAG);
    InternalTransitive(c);
    assert !InternalOrder(c)(key, key);
  }
}
