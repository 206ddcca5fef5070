/** Version edits as records of the manifest (db/version_edit.cc). */
module VersionEdits {
  import opened InternalKeys
  import opened Coding
  import Versions

  /** FileMetaData; the keys are encoded internal keys. */
  datatype FileMeta = FileMeta(number: Word64, size: Word64, smallest: Bytes, largest: Bytes)

  /** What an edit says; a missing field is one whose has_ flag is off. */
  datatype Edit = Edit(comparator: Option<Bytes>, logNumber: Option<Word64>, prevLogNumber: Option<Word64>,
                       nextFile: Option<Word64>, lastSequence: Option<Word64>,
                       compactPointers: seq<(Word, Bytes)>, deleted: set<(Word, Word64)>, added: seq<(Word, FileMeta)>)

  /** One tagged field of a record. */
  datatype Field =
    | Comparator(name: Bytes)
    | LogNumber(n: Word64)
    | NextFile(n: Word64)
    | LastSequence(n: Word64)
    | CompactPointer(level: Word, key: Bytes)
    | DeletedFile(level: Word, n: Word64)
    | NewFile(level: Word, f: FileMeta)
    | PrevLogNumber(n: Word64)

  // ---- writing ----

  /** PutLengthPrefixedSlice: the length is cut to 32 bits. */
  function Prefixed(s: Bytes): Bytes { Varint(Low32(|s|)) + s }

  function Tag(f: Field): Word {
    match f
    case Comparator(_) => 1
    case LogNumber(_) => 2
    case NextFile(_) => 3
    case LastSequence(_) => 4
    case CompactPointer(_, _) => 5
    case DeletedFile(_, _) => 6
    case NewFile(_, _) => 7
    case PrevLogNumber(_) => 9
  }

  function FileBytes(f: FileMeta): Bytes {
    Varint(f.number) + (Varint(f.size) + (Prefixed(f.smallest) + Prefixed(f.largest)))
  }

  function Body(f: Field): Bytes {
    match f
    case Comparator(name) => Prefixed(name)
    case CompactPointer(level, key) => Varint(level) + Prefixed(key)
    case DeletedFile(level, n) => Varint(level) + Varint(n)
    case NewFile(level, meta) => Varint(level) + FileBytes(meta)
    case _ => Varint(f.n)
  }

  function FieldBytes(f: Field): Bytes { Varint(Tag(f)) + Body(f) }

  function Record(fields: seq<Field>): Bytes {
    if fields == [] then [] else FieldBytes(fields[0]) + Record(fields[1..])
  }

  /** The order of std::set over level and number. */
  predicate PairAtMost(a: (Word, Word64), b: (Word, Word64)) { a.0 < b.0 || (a.0 == b.0 && a.1 <= b.1) }

  predicate LeastPair(s: set<(Word, Word64)>, x: (Word, Word64)) { x in s && forall y :: y in s ==> PairAtMost(x, y) }

  lemma {:induction false} LeastExists(s: set<(Word, Word64)>)
    requires s != {}
    ensures exists x :: LeastPair(s, x)
    decreases |s|
  {
    var x :| x in s;
    var rest := s - {x};
    if rest == {} {
      assert s == {x} && LeastPair(s, x);
    } else {
      LeastExists(rest);
      var y :| LeastPair(rest, y);
      var least := if PairAtMost(x, y) then x else y;
      forall z | z in s ensures PairAtMost(least, z) { assert z == x || z in rest; }
      assert LeastPair(s, least);
    }
  }

  ghost function Ascending(s: set<(Word, Word64)>): seq<(Word, Word64)>
    decreases |s|
  {
    if s == {} then [] else
      LeastExists(s);
      var x :| LeastPair(s, x);
      [x] + Ascending(s - {x})
  }

  lemma LeastFirst(s: set<(Word, Word64)>, x: (Word, Word64))
    requires LeastPair(s, x)
    ensures Ascending(s) == [x] + Ascending(s - {x})
  {
    forall y | LeastPair(s, y) ensures y == x {}
  }

  lemma {:induction false} AscendingElements(s: set<(Word, Word64)>)
    ensures forall x :: x in Ascending(s) <==> x in s
    decreases |s|
  {
    if s != {} {
      LeastExists(s);
      var x :| LeastPair(s, x);
      LeastFirst(s, x);
      AscendingElements(s - {x});
    }
  }

  function Pointers(ps: seq<(Word, Bytes)>): seq<Field> {
    seq(|ps|, i requires 0 <= i < |ps| => CompactPointer(ps[i].0, ps[i].1))
  }

  function Deletions(ds: seq<(Word, Word64)>): seq<Field> {
    seq(|ds|, i requires 0 <= i < |ds| => DeletedFile(ds[i].0, ds[i].1))
  }

  function Additions(ns: seq<(Word, FileMeta)>): seq<Field> {
    seq(|ns|, i requires 0 <= i < |ns| => NewFile(ns[i].0, ns[i].1))
  }

  function Numbers(e: Edit): seq<Field> {
    (if e.comparator.Some? then [Comparator(e.comparator.value)] else [])
    + (if e.logNumber.Some? then [LogNumber(e.logNumber.value)] else [])
    + (if e.prevLogNumber.Some? then [PrevLogNumber(e.prevLogNumber.value)] else [])
    + (if e.nextFile.Some? then [NextFile(e.nextFile.value)] else [])
    + (if e.lastSequence.Some? then [LastSequence(e.lastSequence.value)] else [])
  }

  ghost function FieldsOf(e: Edit): seq<Field> {
    Numbers(e) + Pointers(e.compactPointers) + Deletions(Ascending(e.deleted)) + Additions(e.added)
  }

  ghost function Encoded(e: Edit): Bytes { Record(FieldsOf(e)) }

  // ---- reading ----

  function GetVarint32(data: Bytes, p: nat): (r: Option<(Word, nat)>)
    ensures r.Some? ==> p < r.value.1 <= |data|
  {
    match DecodeVarint(data, p, |data|, 5)
    case None => None
    case Some(r) => Some((Low32(r.0), r.1))
  }

  function GetVarint64(data: Bytes, p: nat): (r: Option<(Word64, nat)>)
    ensures r.Some? ==> p < r.value.1 <= |data|
  {
    match DecodeVarint(data, p, |data|, 10)
    case None => None
    case Some(r) => Some((Low64(r.0), r.1))
  }

  /** GetLengthPrefixedSlice, and GetInternalKey, which takes any slice. */
  function GetSlice(data: Bytes, p: nat): (r: Option<(Bytes, nat)>)
    ensures r.Some? ==> p < r.value.1 <= |data| && |r.value.0| < 0x1_0000_0000
  {
    match GetVarint32(data, p)
    case None => None
    case Some(r) => if |data| - r.1 >= r.0 then Some((data[r.1..r.1 + r.0], r.1 + r.0)) else None
  }

  function GetLevel(data: Bytes, p: nat): (r: Option<(Word, nat)>)
    ensures r.Some? ==> p < r.value.1 <= |data| && r.value.0 < Versions.NUM_LEVELS
  {
    match GetVarint32(data, p)
    case None => None
    case Some(r) => if r.0 < Versions.NUM_LEVELS then Some(r) else None
  }

  function GetFile(data: Bytes, p: nat): (r: Option<(FileMeta, nat)>)
    ensures r.Some? ==> p < r.value.1 <= |data|
  {
    match GetVarint64(data, p)
    case None => None
    case Some(number) =>
      match GetVarint64(data, number.1)
      case None => None
      case Some(size) =>
        match GetSlice(data, size.1)
        case None => None
        case Some(smallest) =>
          match GetSlice(data, smallest.1)
          case None => None
          case Some(largest) => Some((FileMeta(number.0, size.0, smallest.0, largest.0), largest.1))
  }

  datatype Parsed = Got(f: Field, next: nat) | Bad(msg: string)

  function GetNumber(data: Bytes, p: nat, make: Word64 -> Field, msg: string): (r: Parsed)
    ensures r.Got? ==> p < r.next <= |data|
  {
    match GetVarint64(data, p) case None => Bad(msg) case Some(n) => Got(make(n.0), n.1)
  }

  /** The body of a field, once its tag has been read. */
  function GetBody(tag: Word, data: Bytes, p: nat): (r: Parsed)
    ensures r.Got? ==> p < r.next <= |data|
  {
    if tag == 1 then
      match GetSlice(data, p) case None => Bad("comparator name") case Some(s) => Got(Comparator(s.0), s.1)
    else if tag == 2 then GetNumber(data, p, (n: Word64) => LogNumber(n), "log number")
    else if tag == 9 then GetNumber(data, p, (n: Word64) => PrevLogNumber(n), "previous log number")
    else if tag == 3 then GetNumber(data, p, (n: Word64) => NextFile(n), "next file number")
    else if tag == 4 then GetNumber(data, p, (n: Word64) => LastSequence(n), "last sequence number")
    else if tag == 5 then
      match GetLevel(data, p)
      case None => Bad("compaction pointer")
      case Some(level) =>
        match GetSlice(data, level.1) case None => Bad("compaction pointer")
            case Some(s) => Got(CompactPointer(level.0, s.0), s.1)
    else if tag == 6 then
      match GetLevel(data, p)
      case None => Bad("deleted file")
      case Some(level) =>
        match GetVarint64(data, level.1) case None => Bad("deleted file")
            case Some(n) => Got(DeletedFile(level.0, n.0), n.1)
    else if tag == 7 then
      match GetLevel(data, p)
      case None => Bad("new-file entry")
      case Some(level) =>
        match GetFile(data, level.1) case None => Bad("new-file entry") case Some(f) => Got(NewFile(level.0, f.0), f.1)
    else Bad("unknown tag")
  }

  function Taken(e: Edit, f: Field): Edit {
    match f
    case Comparator(name) => e.(comparator := Some(name))
    case LogNumber(n) => e.(logNumber := Some(n))
    case PrevLogNumber(n) => e.(prevLogNumber := Some(n))
    case NextFile(n) => e.(nextFile := Some(n))
    case LastSequence(n) => e.(lastSequence := Some(n))
    case CompactPointer(level, key) => e.(compactPointers := e.compactPointers + [(level, key)])
    case DeletedFile(level, n) => e.(deleted := e.deleted + {(level, n)})
    case NewFile(level, meta) => e.(added := e.added + [(level, meta)])
  }

  /** The loop of DecodeFrom from p on: the edit so far and the message, if any. */
  function Decoded(data: Bytes, p: nat, e: Edit): (Edit, Option<string>)
    requires p <= |data|
    decreases |data| - p
  {
    match GetVarint32(data, p)
    case None => (e, if p < |data| then Some("invalid tag") else None)
    case Some(tag) =>
      match GetBody(tag.0, data, tag.1)
      case Bad(msg) => (e, Some(msg))
      case Got(f, next) => Decoded(data, next, Taken(e, f))
  }

  /** VersionEdit::Clear: it keeps the compaction pointers. */
  function Cleared(pointers: seq<(Word, Bytes)>): Edit { Edit(None, None, None, None, None, pointers, {}, []) }

  // ---- a written record reads back ----

  ghost predicate At(data: Bytes, p: nat, bs: Bytes) { p + |bs| <= |data| && data[p..p + |bs|] == bs }

  lemma AtParts(data: Bytes, p: nat, a: Bytes, b: Bytes)
    requires At(data, p, a + b)
    ensures At(data, p, a) && At(data, p + |a|, b)
  {
    assert data[p..p + |a|] == data[p..p + |a + b|][..|a|];
    assert data[p + |a|..p + |a| + |b|] == data[p..p + |a + b|][|a|..];
  }

  lemma Varint32Back(data: Bytes, p: nat, v: Word)
    requires At(data, p, Varint(v))
    ensures GetVarint32(data, p) == Some((v, p + |Varint(v)|))
  {
    VarintFits(v);
    DecodeEncoded(data, p, |data|, v, 5);
  }

  lemma Varint64Back(data: Bytes, p: nat, v: Word64)
    requires At(data, p, Varint(v))
    ensures GetVarint64(data, p) == Some((v, p + |Varint(v)|))
  {
    Varint64Fits(v);
    DecodeEncoded(data, p, |data|, v, 10);
  }

  predicate ShortSlice(s: Bytes) { |s| < 0x1_0000_0000 }

  lemma SliceBack(data: Bytes, p: nat, s: Bytes)
    requires At(data, p, Prefixed(s)) && ShortSlice(s)
    ensures GetSlice(data, p) == Some((s, p + |Prefixed(s)|))
  {
    hide Varint;
    AtParts(data, p, Varint(|s|), s);
    Varint32Back(data, p, |s|);
  }

  predicate FileFits(f: FileMeta) { ShortSlice(f.smallest) && ShortSlice(f.largest) }

  lemma FileBack(data: Bytes, p: nat, f: FileMeta)
    requires At(data, p, FileBytes(f)) && FileFits(f)
    ensures GetFile(data, p) == Some((f, p + |FileBytes(f)|))
  {
    hide Varint;
    hide Prefixed;
    hide At;
    hide GetVarint64;
    hide GetSlice;
    var a, b, c, d := Varint(f.number), Varint(f.size), Prefixed(f.smallest), Prefixed(f.largest);
    AtParts(data, p, a, b + (c + d));
    AtParts(data, p + |a|, b, c + d);
    AtParts(data, p + |a| + |b|, c, d);
    Varint64Back(data, p, f.number);
    Varint64Back(data, p + |a|, f.size);
    SliceBack(data, p + |a| + |b|, f.smallest);
    SliceBack(data, p + |a| + |b| + |c|, f.largest);
  }

  /** What the 32-bit lengths and the levels of the record can hold. */
  predicate FieldFits(f: Field) {
    match f
    case Comparator(name) => ShortSlice(name)
    case CompactPointer(level, key) => level < Versions.NUM_LEVELS && ShortSlice(key)
    case DeletedFile(level, _) => level < Versions.NUM_LEVELS
    case NewFile(level, meta) => level < Versions.NUM_LEVELS && FileFits(meta)
    case _ => true
  }

  lemma LevelBack(data: Bytes, p: nat, level: Word)
    requires At(data, p, Varint(level)) && level < Versions.NUM_LEVELS
    ensures GetLevel(data, p) == Some((level, p + |Varint(level)|))
  {
    Varint32Back(data, p, level);
  }

  lemma BodyBack(data: Bytes, p: nat, f: Field)
    requires At(data, p, Body(f)) && FieldFits(f)
    ensures GetBody(Tag(f), data, p) == Got(f, p + |Body(f)|)
  {
    hide Varint;
    hide Prefixed;
    hide FileBytes;
    hide At;
    hide GetVarint64;
    hide GetSlice;
    hide GetLevel;
    hide GetFile;
    match f
    case Comparator(name) => SliceBack(data, p, name);
    case CompactPointer(level, key) =>
      AtParts(data, p, Varint(level), Prefixed(key));
      LevelBack(data, p, level);
      SliceBack(data, p + |Varint(level)|, key);
    case DeletedFile(level, n) =>
      AtParts(data, p, Varint(level), Varint(n));
      LevelBack(data, p, level);
      Varint64Back(data, p + |Varint(level)|, n);
    case NewFile(level, meta) =>
      AtParts(data, p, Varint(level), FileBytes(meta));
      LevelBack(data, p, level);
      FileBack(data, p + |Varint(level)|, meta);
    case _ => Varint64Back(data, p, f.n);
  }

  function TakenAll(e: Edit, fields: seq<Field>): Edit
    decreases |fields|
  { if fields == [] then e else TakenAll(Taken(e, fields[0]), fields[1..]) }

  lemma TagBack(data: Bytes, p: nat, f: Field)
    requires At(data, p, FieldBytes(f)) && FieldFits(f)
    ensures GetVarint32(data, p) == Some((Tag(f), p + |Varint(Tag(f))|))
    ensures GetBody(Tag(f), data, p + |Varint(Tag(f))|) == Got(f, p + |FieldBytes(f)|)
  {
    hide Varint;
    hide Body;
    hide GetBody;
    hide GetVarint32;
    hide FieldFits;
    hide At;
    hide Tag;
    AtParts(data, p, Varint(Tag(f)), Body(f));
    Varint32Back(data, p, Tag(f));
    BodyBack(data, p + |Varint(Tag(f))|, f);
  }

  lemma FieldBack(data: Bytes, p: nat, f: Field, e: Edit)
    requires At(data, p, FieldBytes(f)) && FieldFits(f) && p <= |data| && p + |FieldBytes(f)| <= |data|
    ensures Decoded(data, p, e) == Decoded(data, p + |FieldBytes(f)|, Taken(e, f))
  {
    hide Varint;
    hide FieldBytes;
    hide GetBody;
    hide GetVarint32;
    hide FieldFits;
    hide At;
    hide Tag;
    hide Taken;
    TagBack(data, p, f);
  }

  lemma AtFits(data: Bytes, p: nat, bs: Bytes)
    requires At(data, p, bs)
    ensures p + |bs| <= |data|
  {
  }

  lemma RecordFrom(fields: seq<Field>)
    ensures Record(fields) == if fields == [] then [] else FieldBytes(fields[0]) + Record(fields[1..])
  {
  }

  lemma {:induction false} RecordBack(data: Bytes, p: nat, fields: seq<Field>, e: Edit)
    requires At(data, p, Record(fields)) && p + |Record(fields)| == |data|
    requires forall i :: 0 <= i < |fields| ==> FieldFits(fields[i])
    ensures Decoded(data, p, e) == (TakenAll(e, fields), None)
    decreases |fields|
  {
    hide Decoded;
    hide FieldBytes;
    hide Taken;
    hide FieldFits;
    hide At;
    hide Record;
    RecordFrom(fields);
    if fields == [] {
      NothingMore(data, e);
    } else {
      AtParts(data, p, FieldBytes(fields[0]), Record(fields[1..]));
      AtFits(data, p, FieldBytes(fields[0]));
      FieldBack(data, p, fields[0], e);
      RecordBack(data, p + |FieldBytes(fields[0])|, fields[1..], Taken(e, fields[0]));
    }
  }

  lemma NothingMore(data: Bytes, e: Edit)
    ensures Decoded(data, |data|, e) == (e, None)
  {
  }

  lemma {:induction false} TakenInTurn(e: Edit, a: seq<Field>, b: seq<Field>)
    ensures TakenAll(e, a + b) == TakenAll(TakenAll(e, a), b)
    decreases |a|
  {
    if a == [] {
      assert a + b == b;
    } else {
      assert (a + b)[0] == a[0] && (a + b)[1..] == a[1..] + b;
      TakenInTurn(Taken(e, a[0]), a[1..], b);
    }
  }

  lemma {:induction false} TakenPointers(e: Edit, ps: seq<(Word, Bytes)>)
    ensures TakenAll(e, Pointers(ps)) == e.(compactPointers := e.compactPointers + ps)
    decreases |ps|
  {
    if ps == [] {
      assert e.compactPointers + ps == e.compactPointers;
    } else {
      assert Pointers(ps)[0] == CompactPointer(ps[0].0, ps[0].1) && Pointers(ps)[1..] == Pointers(ps[1..]);
      assert [(ps[0].0, ps[0].1)] + ps[1..] == ps;
      TakenPointers(Taken(e, Pointers(ps)[0]), ps[1..]);
      assert (e.compactPointers + [ps[0]]) + ps[1..] == e.compactPointers + ps;
    }
  }

  lemma {:induction false} TakenDeletions(e: Edit, ds: seq<(Word, Word64)>)
    ensures TakenAll(e, Deletions(ds)) == e.(deleted := e.deleted + set d | d in ds)
    decreases |ds|
  {
    if ds == [] {
      assert e.deleted + (set d | d in ds) == e.deleted;
    } else {
      assert Deletions(ds)[0] == DeletedFile(ds[0].0, ds[0].1) && Deletions(ds)[1..] == Deletions(ds[1..]);
      TakenDeletions(Taken(e, Deletions(ds)[0]), ds[1..]);
      assert (e.deleted + {ds[0]}) + (set d | d in ds[1..]) == e.deleted + (set d | d in ds);
    }
  }

  lemma {:induction false} TakenAdditions(e: Edit, ns: seq<(Word, FileMeta)>)
    ensures TakenAll(e, Additions(ns)) == e.(added := e.added + ns)
    decreases |ns|
  {
    if ns == [] {
      assert e.added + ns == e.added;
    } else {
      assert Additions(ns)[0] == NewFile(ns[0].0, ns[0].1) && Additions(ns)[1..] == Additions(ns[1..]);
      TakenAdditions(Taken(e, Additions(ns)[0]), ns[1..]);
      assert (e.added + [ns[0]]) + ns[1..] == e.added + ns;
    }
  }

  lemma OneTaken(e: Edit, f: Field)
    ensures TakenAll(e, [f]) == Taken(e, f) && TakenAll(e, []) == e
  {
    assert TakenAll(Taken(e, f), [f][1..]) == Taken(e, f);
  }

  lemma TakenNumbers(ps: seq<(Word, Bytes)>, e: Edit)
    ensures TakenAll(Cleared(ps), Numbers(e)) == e.(compactPointers := ps, deleted := {}, added := [])
  {
    var a := if e.comparator.Some? then [Comparator(e.comparator.value)] else [];
    var b := if e.logNumber.Some? then [LogNumber(e.logNumber.value)] else [];
    var c := if e.prevLogNumber.Some? then [PrevLogNumber(e.prevLogNumber.value)] else [];
    var d := if e.nextFile.Some? then [NextFile(e.nextFile.value)] else [];
    var l := if e.lastSequence.Some? then [LastSequence(e.lastSequence.value)] else [];
    var e0 := Cleared(ps);
    var e1 := e0.(comparator := e.comparator);
    var e2 := e1.(logNumber := e.logNumber);
    var e3 := e2.(prevLogNumber := e.prevLogNumber);
    var e4 := e3.(nextFile := e.nextFile);
    TakenInTurn(e0, a + b + c + d, l);
    TakenInTurn(e0, a + b + c, d);
    TakenInTurn(e0, a + b, c);
    TakenInTurn(e0, a, b);
    if e.comparator.Some? { OneTaken(e0, a[0]); }
    if e.logNumber.Some? { OneTaken(e1, b[0]); }
    if e.prevLogNumber.Some? { OneTaken(e2, c[0]); }
    if e.nextFile.Some? { OneTaken(e3, d[0]); }
    if e.lastSequence.Some? { OneTaken(e4, l[0]); }
  }

  /** Taking all fields of e gives e, behind the pointers that were there. */
  lemma TakenFields(ps: seq<(Word, Bytes)>, e: Edit)
    ensures TakenAll(Cleared(ps), FieldsOf(e)) == e.(compactPointers := ps + e.compactPointers)
  {
    hide Pointers;
    hide Deletions;
    hide Additions;
    hide Ascending;
    hide Taken;
    var a, b, c, d := Numbers(e), Pointers(e.compactPointers), Deletions(Ascending(e.deleted)), Additions(e.added);
    hide Numbers;
    TakenNumbers(ps, e);
    TakenInTurn(Cleared(ps), a + b + c, d);
    TakenInTurn(Cleared(ps), a + b, c);
    TakenInTurn(Cleared(ps), a, b);
    hide TakenAll;
    var e1 := TakenAll(Cleared(ps), a);
    TakenPointers(e1, e.compactPointers);
    var e2 := e1.(compactPointers := ps + e.compactPointers);
    TakenDeletions(e2, Ascending(e.deleted));
    AscendingElements(e.deleted);
    assert (set x | x in Ascending(e.deleted)) == e.deleted;
    assert {} + e.deleted == e.deleted && [] + e.added == e.added;
    var e3 := e2.(deleted := e.deleted);
    TakenAdditions(e3, e.added);
    assert e3.(added := e.added) == e.(compactPointers := ps + e.compactPointers);
    assert FieldsOf(e) == a + b + c + d;
  }

  /** Edits whose levels exist and whose strings have 32-bit lengths. */
  ghost predicate Encodable(e: Edit) {
    && (e.comparator.Some? ==> ShortSlice(e.comparator.value))
    && (forall p :: p in e.compactPointers ==> p.0 < Versions.NUM_LEVELS && ShortSlice(p.1))
    && (forall d :: d in e.deleted ==> d.0 < Versions.NUM_LEVELS)
    && forall n :: n in e.added ==> n.0 < Versions.NUM_LEVELS && FileFits(n.1)
  }

  lemma FieldsFit(e: Edit)
    requires Encodable(e)
    ensures forall f :: f in FieldsOf(e) ==> FieldFits(f)
  {
    AscendingElements(e.deleted);
    forall f | f in FieldsOf(e) ensures FieldFits(f) {
      if f !in Numbers(e) {
        assert f in Pointers(e.compactPointers) || f in Deletions(Ascending(e.deleted)) || f in Additions(e.added);
      }
    }
  }

  lemma BodyFits(tag: Word, data: Bytes, p: nat)
    ensures GetBody(tag, data, p).Got? ==> FieldFits(GetBody(tag, data, p).f)
  {
    hide GetVarint64;
    hide GetSlice;
    hide GetLevel;
  }

  lemma {:induction false} DecodedFits(data: Bytes, p: nat, e: Edit)
    requires p <= |data| && Encodable(e)
    ensures Encodable(Decoded(data, p, e).0)
    decreases |data| - p
  {
    var tag := GetVarint32(data, p);
    if tag.Some? {
      var body := GetBody(tag.value.0, data, tag.value.1);
      if body.Got? {
        BodyFits(tag.value.0, data, tag.value.1);
        DecodedFits(data, body.next, Taken(e, body.f));
      }
    }
  }

  /** An edit survives its record exactly when it is encodable. */
  lemma DecodesBackIff(e: Edit)
    ensures Decoded(Encoded(e), 0, Cleared([])) == (e, None) <==> Encodable(e)
  {
    if Encodable(e) { DecodesBack([], e); }
    DecodedFits(Encoded(e), 0, Cleared([]));
  }

  /** Decoding into an edit in use goes on from its compaction pointers. */
  lemma DecodesBack(ps: seq<(Word, Bytes)>, e: Edit)
    requires Encodable(e)
    ensures Decoded(Encoded(e), 0, Cleared(ps)) == (e.(compactPointers := ps + e.compactPointers), None)
    ensures ps == [] ==> e.(compactPointers := ps + e.compactPointers) == e
  {
    FieldsFit(e);
    RecordBack(Encoded(e), 0, FieldsOf(e), Cleared(ps));
    TakenFields(ps, e);
    if ps == [] { assert ps + e.compactPointers == e.compactPointers; }
  }

  /** Writing what was read, from any bytes that were accepted, and reading it again. */
  lemma NormalForm(data: Bytes)
    requires Decoded(data, 0, Cleared([])).1 == None
    ensures var e := Decoded(data, 0, Cleared([])).0; Decoded(Encoded(e), 0, Cleared([])) == (e, None)
  {
    DecodedFits(data, 0, Cleared([]));
    DecodesBackIff(Decoded(data, 0, Cleared([])).0);
  }

  // ---- the class ----

  lemma {:induction false} RecordParts(a: seq<Field>, b: seq<Field>)
    ensures Record(a + b) == Record(a) + Record(b)
    decreases |a|
  {
    if a == [] {
      assert a + b == b;
    } else {
      assert (a + b)[0] == a[0] && (a + b)[1..] == a[1..] + b;
      RecordParts(a[1..], b);
    }
  }

  lemma OneMoreField(a: seq<Field>, f: Field)
    ensures Record(a + [f]) == Record(a) + FieldBytes(f)
  {
    RecordParts(a, [f]);
    assert [f][1..] == [] && Record([f]) == FieldBytes(f) + Record([f][1..]);
  }

  lemma NoDeletions(fields: seq<Field>)
    ensures fields + Deletions([]) == fields
  {
  }

  lemma OneMoreDeletion(fields: seq<Field>, done: seq<(Word, Word64)>, d: (Word, Word64))
    ensures Record(fields + Deletions(done + [d]))
            == Record(fields + Deletions(done)) + FieldBytes(DeletedFile(d.0, d.1))
  {
    OneMoreField(fields + Deletions(done), DeletedFile(d.0, d.1));
    assert Deletions(done + [d]) == Deletions(done) + [DeletedFile(d.0, d.1)];
    assert fields + Deletions(done + [d]) == fields + Deletions(done) + [DeletedFile(d.0, d.1)];
  }

  lemma OneMorePointer(fields: seq<Field>, done: seq<(Word, Bytes)>, p: (Word, Bytes))
    ensures Record(fields + Pointers(done + [p]))
            == Record(fields + Pointers(done)) + FieldBytes(CompactPointer(p.0, p.1))
  {
    OneMoreField(fields + Pointers(done), CompactPointer(p.0, p.1));
    assert Pointers(done + [p]) == Pointers(done) + [CompactPointer(p.0, p.1)];
    assert fields + Pointers(done + [p]) == fields + Pointers(done) + [CompactPointer(p.0, p.1)];
  }

  lemma OneMoreAddition(fields: seq<Field>, done: seq<(Word, FileMeta)>, n: (Word, FileMeta))
    ensures Record(fields + Additions(done + [n])) == Record(fields + Additions(done)) + FieldBytes(NewFile(n.0, n.1))
  {
    OneMoreField(fields + Additions(done), NewFile(n.0, n.1));
    assert Additions(done + [n]) == Additions(done) + [NewFile(n.0, n.1)];
    assert fields + Additions(done + [n]) == fields + Additions(done) + [NewFile(n.0, n.1)];
  }

  method PutSlice(s: Bytes) returns (bs: Bytes)
    ensures bs == Prefixed(s)
  {
    var n := EncodeVarint32(Low32(|s|));
    bs := n + s;
  }

  method PutFile(f: FileMeta) returns (bs: Bytes)
    ensures bs == FileBytes(f)
  {
    var number := EncodeVarint64(f.number);
    var size := EncodeVarint64(f.size);
    var smallest := PutSlice(f.smallest);
    var largest := PutSlice(f.largest);
    bs := number + (size + (smallest + largest));
  }

  class VersionEdit {
    var comparator: Option<Bytes>
    var logNumber: Option<Word64>
    var prevLogNumber: Option<Word64>
    var nextFileNumber: Option<Word64>
    var lastSequence: Option<Word64>
    var compactPointers: seq<(Word, Bytes)>
    var deletedFiles: set<(Word, Word64)>
    var newFiles: seq<(Word, FileMeta)>

    ghost function View(): Edit
      reads this
    {
      Edit(comparator, logNumber, prevLogNumber, nextFileNumber, lastSequence, compactPointers, deletedFiles, newFiles)
    }

    constructor ()
      ensures View() == Cleared([])
    {
      comparator, logNumber, prevLogNumber, nextFileNumber, lastSequence := None, None, None, None, None;
      compactPointers, deletedFiles, newFiles := [], {}, [];
    }

    method Clear()
      modifies this
      ensures View() == Cleared(old(compactPointers))
    {
      comparator, logNumber, prevLogNumber, nextFileNumber, lastSequence := None, None, None, None, None;
      deletedFiles, newFiles := {}, [];
    }

    method PutNumber(dst: Bytes, ghost written: seq<Field>, tag: Word, n: Option<Word64>, ghost f: Field)
      returns (r: Bytes, ghost more: seq<Field>)
      requires n.Some? ==> FieldBytes(f) == Varint(tag) + Varint(n.value)
      ensures more == if n.Some? then [f] else []
      ensures dst == Record(written) ==> r == Record(written + more)
    {
      r, more := dst, [];
      if n.Some? {
        var t := EncodeVarint32(tag);
        var v := EncodeVarint64(n.value);
        r, more := dst + (t + v), [f];
        OneMoreField(written, f);
      }
      assert written + [] == written;
    }

    /** EncodeTo, into an empty string. */
    method EncodeTo() returns (dst: Bytes)
      ensures dst == Encoded(View())
    {
      hide Varint;
      hide Record;
      hide Numbers;
      dst := PutNumbers();
      ghost var fields := Numbers(View());
      dst := PutPointers(dst, fields);
      dst := PutDeletions(dst, fields + Pointers(compactPointers));
      dst := PutAdditions(dst, fields + Pointers(compactPointers) + Deletions(Ascending(deletedFiles)));
    }

    method PutNumbers() returns (dst: Bytes)
      ensures dst == Record(Numbers(View()))
    {
      hide Varint;
      ghost var fields, more := [], [];
      dst := [];
      if comparator.Some? {
        fields := [Comparator(comparator.value)];
        OneMoreField([], fields[0]);
        assert [] + fields == fields;
        var t := EncodeVarint32(1);
        var s := PutSlice(comparator.value);
        dst := t + s;
      }
      hide Record;
      dst, more := PutNumber(dst, fields, 2, logNumber, LogNumber(if logNumber.Some? then logNumber.value else 0));
      fields := fields + more;
      dst, more := PutNumber(dst, fields, 9, prevLogNumber,
                             PrevLogNumber(if prevLogNumber.Some? then prevLogNumber.value else 0));
      fields := fields + more;
      dst, more := PutNumber(dst, fields, 3, nextFileNumber,
                             NextFile(if nextFileNumber.Some? then nextFileNumber.value else 0));
      fields := fields + more;
      dst, more := PutNumber(dst, fields, 4, lastSequence,
                             LastSequence(if lastSequence.Some? then lastSequence.value else 0));
      assert fields + more == Numbers(View());
    }

    method PutPointers(start: Bytes, ghost fields: seq<Field>) returns (dst: Bytes)
      requires start == Record(fields)
      ensures dst == Record(fields + Pointers(compactPointers))
    {
      hide Varint;
      hide Record;
      dst := start;
      assert fields + Pointers(compactPointers[..0]) == fields;
      hide Pointers;
      for i := 0 to |compactPointers|
        invariant dst == Record(fields + Pointers(compactPointers[..i]))
      {
        var level, key := compactPointers[i].0, compactPointers[i].1;
        assert compactPointers[..i + 1] == compactPointers[..i] + [compactPointers[i]];
        OneMorePointer(fields, compactPointers[..i], compactPointers[i]);
        var t := EncodeVarint32(5);
        var l := EncodeVarint32(level);
        var s := PutSlice(key);
        dst := dst + (t + (l + s));
      }
      assert compactPointers[..|compactPointers|] == compactPointers;
    }

    /** The set is walked in ascending order. */
    method PutDeletions(start: Bytes, ghost fields: seq<Field>) returns (dst: Bytes)
      requires start == Record(fields)
      ensures dst == Record(fields + Deletions(Ascending(deletedFiles)))
    {
      hide Varint;
      hide Record;
      hide Deletions;
      dst := start;
      ghost var done := [];
      var left := deletedFiles;
      NoDeletions(fields);
      while left != {}
        invariant dst == Record(fields + Deletions(done)) && done + Ascending(left) == Ascending(deletedFiles)
        decreases |left|
      {
        LeastExists(left);
        var d: (Word, Word64) :| d in left && LeastPair(left, d);
        LeastFirst(left, d);
        OneMoreDeletion(fields, done, d);
        assert done + Ascending(left) == (done + [d]) + Ascending(left - {d});
        done, left := done + [d], left - {d};
        var t := EncodeVarint32(6);
        var l := EncodeVarint32(d.0);
        var n := EncodeVarint64(d.1);
        dst := dst + (t + (l + n));
      }
      assert done + [] == done;
    }

    method PutAdditions(start: Bytes, ghost fields: seq<Field>) returns (dst: Bytes)
      requires start == Record(fields)
      ensures dst == Record(fields + Additions(newFiles))
    {
      hide Varint;
      hide Record;
      dst := start;
      assert fields + Additions(newFiles[..0]) == fields;
      hide Additions;
      for i := 0 to |newFiles|
        invariant dst == Record(fields + Additions(newFiles[..i]))
      {
        var level, f := newFiles[i].0, newFiles[i].1;
        assert newFiles[..i + 1] == newFiles[..i] + [newFiles[i]];
        OneMoreAddition(fields, newFiles[..i], newFiles[i]);
        var t := EncodeVarint32(7);
        var l := EncodeVarint32(level);
        var meta := PutFile(f);
        dst := dst + (t + (l + meta));
      }
      assert newFiles[..|newFiles|] == newFiles;
    }

    /** DecodeFrom: None is Status::OK, otherwise the message of the corruption. */
    method DecodeFrom(src: Bytes) returns (msg: Option<string>)
      modifies this
      ensures (View(), msg) == Decoded(src, 0, Cleared(old(compactPointers)))
    {
      Clear();
      var p := 0;
      var tag := GetVarint32(src, p);
      msg := None;
      while msg == None && tag.Some?
        invariant p <= |src| && (msg == None ==> tag == GetVarint32(src, p))
        invariant Decoded(src, 0, Cleared(old(compactPointers))) == if msg == None then Decoded(src, p, View())
                                                                    else (View(), msg)
        decreases |src| - p, msg == None
      {
        ghost var was := View();
        var next;
        msg, next := TakeField(tag.value.0, src, tag.value.1);
        if msg == None {
          p := next;
          tag := GetVarint32(src, p);
        }
      }
      if msg == None && p < |src| { msg := Some("invalid tag"); }
    }

    /** The switch over the tags. */
    method TakeField(tag: Word, src: Bytes, p: nat) returns (msg: Option<string>, next: nat)
      requires p <= |src|
      modifies this
      ensures match GetBody(tag, src, p)
              case Bad(m) => msg == Some(m) && View() == old(View())
              case Got(f, q) => msg == None && next == q && View() == Taken(old(View()), f)
    {
      hide GetVarint64;
      hide GetVarint32;
      hide GetSlice;
      hide GetLevel;
      hide GetFile;
      msg, next := None, p;
      match tag
      case 1 =>
        var s := GetSlice(src, p);
        if s.Some? { comparator, next := Some(s.value.0), s.value.1; } else { msg := Some("comparator name"); }
      case 2 =>
        var n := GetVarint64(src, p);
        if n.Some? { logNumber, next := Some(n.value.0), n.value.1; } else { msg := Some("log number"); }
      case 9 =>
        var n := GetVarint64(src, p);
        if n.Some? { prevLogNumber, next := Some(n.value.0), n.value.1; } else { msg := Some("previous log number"); }
      case 3 =>
        var n := GetVarint64(src, p);
        if n.Some? { nextFileNumber, next := Some(n.value.0), n.value.1; } else { msg := Some("next file number"); }
      case 4 =>
        var n := GetVarint64(src, p);
        if n.Some? { lastSequence, next := Some(n.value.0), n.value.1; } else { msg := Some("last sequence number"); }
      case 5 =>
        var level := GetLevel(src, p);
        var key := if level.Some? then GetSlice(src, level.value.1) else None;
        if key.Some? { compactPointers, next := compactPointers + [(level.value.0, key.value.0)], key.value.1; }
        else { msg := Some("compaction pointer"); }
      case 6 =>
        var level := GetLevel(src, p);
        var n := if level.Some? then GetVarint64(src, level.value.1) else None;
        if n.Some? { deletedFiles, next := deletedFiles + {(level.value.0, n.value.0)}, n.value.1; }
        else { msg := Some("deleted file"); }
      case 7 =>
        var level := GetLevel(src, p);
        var f := if level.Some? then GetFile(src, level.value.1) else None;
        if f.Some? { newFiles, next := newFiles + [(level.value.0, f.value.0)], f.value.1; }
        else { msg := Some("new-file entry"); }
      case _ => msg := Some("unknown tag");
    }
  }
}
