/** Damaged logs (db/log_reader.cc): what is returned has passed its checksums, and damage
    costs no record that ends before it or starts behind the end of its block. */
module LogDamage {
  import opened Coding
  import opened LogFormat
  import opened LogRecovery

  // ---- what is returned is intact ----

  lemma First4(bs: Bytes)
    requires |bs| >= 4
    ensures DecodeFixed32(bs[..4]) == DecodeFixed32(bs)
  {
  }

  /** A header and a payload that match their checksum are a physical record. */
  lemma IsPhysical(file: Bytes, crc: Crc, q: nat, n: nat)
    requires q + HEADER + n <= |file| && n == file[q + 4] as int + file[q + 5] as int * 256
    requires crc(file[q + 6..q + HEADER + n]) == Unmask(DecodeFixed32(file[q..]))
    ensures n <= 0xffff
    ensures file[q..q + HEADER + n] == Physical(crc, file[q + 6], file[q + HEADER..q + HEADER + n])
  {
    hide Mask;
    hide Unmask;
    hide Fixed32;
    hide DecodeFixed32;
    var t, data, sum := file[q + 6], file[q + HEADER..q + HEADER + n], file[q..];
    EncodedBack(sum[..4]);
    assert DecodeFixed32(sum[..4]) == DecodeFixed32(sum) by { First4(sum); }
    MaskUnmask(DecodeFixed32(sum));
    assert file[q + 6..q + HEADER + n] == [t] + data;
    assert sum[..4] == file[q..q + 4];
    assert [n % 256, n / 256, t] == file[q + 4..q + HEADER];
    assert file[q..q + HEADER + n] == file[q..q + 4] + file[q + 4..q + HEADER] + data;
  }

  /** What is seen with a type of the file's own is an intact record of this type. */
  lemma SeenIsIntact(file: Bytes, crc: Crc, p: nat)
    requires HeaderAt(p) + HEADER <= |file|
    ensures var q := HeaderAt(p); var s := PhysicalAt(file, crc, p);
            s.code == EOF || s.code == BAD || IsIntact(file, crc, p, s)
    ensures var q := HeaderAt(p); var s := PhysicalAt(file, crc, p);
            s.code == EOF && BlockEnd(q) <= |file| ==> IsIntact(file, crc, p, s)
  {
    hide Unmask;
    hide DecodeFixed32;
    hide Physical;
    var q := HeaderAt(p);
    var n := file[q + 4] as int + file[q + 5] as int * 256;
    HeaderFits(p);
    if q + HEADER + n <= |file| && q + HEADER + n <= BlockEnd(q)
       && crc(file[q + 6..q + HEADER + n]) == Unmask(DecodeFixed32(file[q..])) {
      IsPhysical(file, crc, q, n);
      InBlock(q, HEADER + n);
    }
  }

  ghost predicate IsIntact(file: Bytes, crc: Crc, p: nat, s: Seen) {
    s.code < 256 && RecordAt(file, p, crc, s.code, s.fragment) && s.next == HeaderAt(p) + HEADER + |s.fragment|
    && s.report == []
  }

  lemma InBlock(q: nat, len: nat)
    requires q + len <= BlockEnd(q)
    ensures q % BLOCK + len <= BLOCK
  {
    assert q == q / BLOCK * BLOCK + q % BLOCK;
  }

  /** n physical records in a row, of the types a writer gives the fragments of a record. */
  ghost predicate Chain(file: Bytes, crc: Crc, p: nat, begin: bool, data: Bytes, n: nat)
    decreases n
  {
    n > 0 && exists k :: 0 <= k <= |data| && Link(file, crc, p, begin, data, n, k)
  }

  ghost predicate Link(file: Bytes, crc: Crc, p: nat, begin: bool, data: Bytes, n: nat, k: nat)
    requires n > 0 && k <= |data|
    decreases n, 0
  {
    RecordAt(file, p, crc, TypeOf(begin, n == 1), data[..k])
    && if n == 1 then k == |data| else Chain(file, crc, HeaderAt(p) + HEADER + k, false, data[k..], n - 1)
  }

  ghost predicate Chained(file: Bytes, crc: Crc, p: nat, r: Bytes) {
    exists q, n :: p <= q && Chain(file, crc, q, true, r, n)
  }

  /** The rest of a record whose first fragments are in hand. */
  ghost predicate Continued(file: Bytes, crc: Crc, p: nat, scratch: Bytes, r: Bytes) {
    exists left, n :: r == scratch + left && Chain(file, crc, p, false, left, n)
  }

  lemma OneLink(file: Bytes, crc: Crc, p: nat, begin: bool, data: Bytes)
    requires RecordAt(file, p, crc, TypeOf(begin, true), data)
    ensures Chain(file, crc, p, begin, data, 1)
  {
    assert data[..|data|] == data;
    assert Link(file, crc, p, begin, data, 1, |data|);
  }

  lemma MoreLinks(file: Bytes, crc: Crc, p: nat, begin: bool, piece: Bytes, left: Bytes, n: nat)
    requires RecordAt(file, p, crc, TypeOf(begin, false), piece)
    requires Chain(file, crc, HeaderAt(p) + HEADER + |piece|, false, left, n)
    ensures Chain(file, crc, p, begin, piece + left, n + 1)
  {
    var data := piece + left;
    assert data[..|piece|] == piece && data[|piece|..] == left;
    assert Link(file, crc, p, begin, data, n + 1, |piece|);
  }

  lemma ChainedFrom(file: Bytes, crc: Crc, p: nat, q: nat, r: Bytes)
    requires p <= q && Chained(file, crc, q, r)
    ensures Chained(file, crc, p, r)
  {
  }

  ghost predicate AllIntact(file: Bytes, crc: Crc, p: nat, scratch: Bytes, inFragment: bool, rs: seq<Bytes>) {
    forall i :: 0 <= i < |rs| ==>
      Chained(file, crc, p, rs[i]) || (i == 0 && inFragment && Continued(file, crc, p, scratch, rs[i]))
  }

  /** Every record that is read, of any bytes whatever, is the payload of a row of intact
      physical records from a first to a last one, with nothing in between. */
  lemma {:induction false} ReadIsIntact(file: Bytes, crc: Crc, p: nat, scratch: Bytes, inFragment: bool)
    ensures AllIntact(file, crc, p, scratch, inFragment, ReadOn(file, crc, p, scratch, inFragment).0)
    decreases |file| - p
  {
    hide PhysicalAt;
    hide RecordAt;
    hide HeaderAt;
    hide Chain;
    var s := PhysicalAt(file, crc, p);
    var step := Assemble(s.code, s.fragment, scratch, inFragment);
    if !step.End? {
      SeenByType(file, crc, p);
      match step
      case Done(r, _) =>
        ReadIsIntact(file, crc, s.next, [], false);
        OneRecord(file, crc, p, scratch, inFragment);
        RestIsIntact(file, crc, p, s.next, scratch, inFragment, r, ReadOn(file, crc, s.next, [], false).0);
      case More(scratch', inFragment', _) =>
        ReadIsIntact(file, crc, s.next, scratch', inFragment');
        OneFragment(file, crc, p, scratch, inFragment, ReadOn(file, crc, s.next, scratch', inFragment').0);
    }
  }

  lemma RestIsIntact(file: Bytes, crc: Crc, p: nat, next: nat, scratch: Bytes, inFragment: bool, r: Bytes,
                     rest: seq<Bytes>)
    requires Chained(file, crc, p, r) || (inFragment && Continued(file, crc, p, scratch, r))
    requires p <= next && AllIntact(file, crc, next, [], false, rest)
    ensures AllIntact(file, crc, p, scratch, inFragment, [r] + rest)
  {
    hide Chained;
    hide Continued;
    var all := [r] + rest;
    forall i | 0 <= i < |all|
      ensures Chained(file, crc, p, all[i]) || (i == 0 && inFragment && Continued(file, crc, p, scratch, all[i]))
    {
      if i > 0 { ChainedFrom(file, crc, p, next, all[i]); }
    }
  }

  lemma OneFragment(file: Bytes, crc: Crc, p: nat, scratch: Bytes, inFragment: bool, rest: seq<Bytes>)
    requires var s := PhysicalAt(file, crc, p);
             && s.code != EOF && p < s.next && (s.code == BAD || IsIntact(file, crc, p, s))
             && var step := Assemble(s.code, s.fragment, scratch, inFragment);
                step.More? && AllIntact(file, crc, s.next, step.scratch, step.inFragment, rest)
    ensures AllIntact(file, crc, p, scratch, inFragment, rest)
  {
    hide PhysicalAt;
    hide Assemble;
    hide Chained;
    hide Continued;
    var s := PhysicalAt(file, crc, p);
    var step := Assemble(s.code, s.fragment, scratch, inFragment);
    forall i | 0 <= i < |rest|
      ensures Chained(file, crc, p, rest[i]) || (i == 0 && inFragment && Continued(file, crc, p, scratch, rest[i]))
    {
      if Chained(file, crc, s.next, rest[i]) { ChainedFrom(file, crc, p, s.next, rest[i]); }
      else { FragmentBefore(file, crc, p, scratch, inFragment, rest[i]); }
    }
  }

  lemma FragmentBefore(file: Bytes, crc: Crc, p: nat, scratch: Bytes, inFragment: bool, r: Bytes)
    requires var s := PhysicalAt(file, crc, p);
             && s.code != EOF && (s.code == BAD || IsIntact(file, crc, p, s))
             && var step := Assemble(s.code, s.fragment, scratch, inFragment);
                step.More? && step.inFragment && Continued(file, crc, s.next, step.scratch, r)
    ensures Chained(file, crc, p, r) || (inFragment && Continued(file, crc, p, scratch, r))
  {
    hide PhysicalAt;
    hide RecordAt;
    hide HeaderAt;
    hide Chain;
    var s := PhysicalAt(file, crc, p);
    var step := Assemble(s.code, s.fragment, scratch, inFragment);
    var left, n :| r == step.scratch + left && Chain(file, crc, s.next, false, left, n);
    MoreLinks(file, crc, p, s.code == 2, s.fragment, left, n);
    if s.code == 3 { Assoc(scratch, s.fragment, left); }
  }

  /** Records of types a writer uses are intact. */
  lemma SeenByType(file: Bytes, crc: Crc, p: nat)
    ensures var s := PhysicalAt(file, crc, p);
            s.code != EOF ==> p < s.next <= |file| && (s.code == BAD || IsIntact(file, crc, p, s))
  {
    hide ParsedAt;
    if HeaderAt(p) + HEADER <= |file| { SeenIsIntact(file, crc, p); }
  }

  lemma OneRecord(file: Bytes, crc: Crc, p: nat, scratch: Bytes, inFragment: bool)
    requires var s := PhysicalAt(file, crc, p);
             && s.code != EOF && (s.code == BAD || IsIntact(file, crc, p, s))
             && Assemble(s.code, s.fragment, scratch, inFragment).Done?
    ensures var s := PhysicalAt(file, crc, p);
            var r := Assemble(s.code, s.fragment, scratch, inFragment).record;
            Chained(file, crc, p, r) || (inFragment && Continued(file, crc, p, scratch, r))
  {
    hide PhysicalAt;
    hide RecordAt;
    hide HeaderAt;
    hide Chain;
    var s := PhysicalAt(file, crc, p);
    OneLink(file, crc, p, s.code == 1, s.fragment);
  }

  // ---- what damage costs ----

  /** Bytes from lo up to hi, the end of a block, are not what was written. */
  ghost predicate Damaged(log: Bytes, file: Bytes, lo: nat, hi: nat) {
    lo <= hi <= |log| == |file| && hi % BLOCK == 0 && file[..lo] == log[..lo] && file[hi..] == log[hi..]
  }

  /** Between p and hi no bytes read as an intact record of type 5, which ReadRecord would
      take for the end of the file. */
  ghost predicate NoFalseEnd(file: Bytes, crc: Crc, p: nat, hi: nat) {
    forall q, data :: p <= q && HeaderAt(q) < hi ==> !RecordAt(file, q, crc, 5, data)
  }

  lemma Before(log: Bytes, file: Bytes, lo: nat, hi: nat, crc: Crc, p: nat, rec: Bytes)
    requires Damaged(log, file, lo, hi) && EmitsAt(log, p, crc, true, rec) && EmitEnd(p, crc, true, rec) <= lo
    ensures EmitsAt(file, p, crc, true, rec)
  {
    hide Emit;
    var end := EmitEnd(p, crc, true, rec);
    assert file[0..0 + lo] == file[..lo] && log[0..0 + lo] == log[..lo];
    SubSlice(file, 0, lo, p, end);
    SubSlice(log, 0, lo, p, end);
  }

  lemma SameBehind(log: Bytes, file: Bytes, hi: nat, p: nat, q: nat)
    requires |log| == |file| && hi <= p <= q <= |file| && file[hi..] == log[hi..]
    ensures file[p..q] == log[p..q]
  {
    var n := |file| - hi;
    assert file[hi..hi + n] == file[hi..] && log[hi..hi + n] == log[hi..];
    SubSlice(file, hi, n, p - hi, q - hi);
    SubSlice(log, hi, n, p - hi, q - hi);
  }

  lemma Behind(log: Bytes, file: Bytes, lo: nat, hi: nat, crc: Crc, p: nat, rec: Bytes)
    requires Damaged(log, file, lo, hi) && EmitsAt(log, p, crc, true, rec) && p >= hi
    ensures EmitsAt(file, p, crc, true, rec)
  {
    hide Emit;
    SameBehind(log, file, hi, p, EmitEnd(p, crc, true, rec));
  }

  /** Records that end before the damage. */
  lemma {:induction false} ReadBefore(crc: Crc, recs: seq<Bytes>, file: Bytes, lo: nat, hi: nat, i: nat, a: nat)
    requires Damaged(LogOf(crc, recs), file, lo, hi) && i <= a <= |recs| && EndOf(crc, recs, a) <= lo
    ensures ReadOn(file, crc, EndOf(crc, recs, i), [], false).0
         == recs[i..a] + ReadOn(file, crc, EndOf(crc, recs, a), [], false).0
    decreases a - i
  {
    hide LogOf;
    hide EmitsAt;
    hide EmitEnd;
    hide ReadOn;
    hide Damaged;
    if i < a {
      RecordInLog(crc, recs, i);
      EndsAscend(crc, recs, i + 1, a);
      Before(LogOf(crc, recs), file, lo, hi, crc, EndOf(crc, recs, i), recs[i]);
      RecordRead(file, crc, EndOf(crc, recs, i), true, recs[i], [], false);
      ReadBefore(crc, recs, file, lo, hi, i + 1, a);
      assert [] + recs[i] == recs[i] && recs[i..a] == [recs[i]] + recs[i + 1..a];
      Assoc([recs[i]], recs[i + 1..a], ReadOn(file, crc, EndOf(crc, recs, a), [], false).0);
    } else {
      assert recs[i..a] == [];
    }
  }

  lemma EndsAscend(crc: Crc, recs: seq<Bytes>, i: nat, j: nat)
    requires i <= j <= |recs|
    ensures EndOf(crc, recs, i) <= EndOf(crc, recs, j) <= |LogOf(crc, recs)|
  {
    hide LogOf;
    LogPrefix(crc, recs[..j], i);
    LogPrefix(crc, recs, j);
    assert recs[..j][..i] == recs[..i];
  }

  /** Records that start behind the block of the damage, whatever the reader has in hand. */
  lemma {:induction false} ReadBehind(crc: Crc, recs: seq<Bytes>, file: Bytes, lo: nat, hi: nat, i: nat, scratch: Bytes,
                                      inFragment: bool)
    requires Damaged(LogOf(crc, recs), file, lo, hi) && i <= |recs| && EndOf(crc, recs, i) >= hi
    ensures ReadOn(file, crc, EndOf(crc, recs, i), scratch, inFragment).0 == recs[i..]
    decreases |recs| - i
  {
    hide LogOf;
    hide EmitsAt;
    hide EmitEnd;
    hide ReadOn;
    if i < |recs| {
      RecordInLog(crc, recs, i);
      EndsAscend(crc, recs, i, i + 1);
      Behind(LogOf(crc, recs), file, lo, hi, crc, EndOf(crc, recs, i), recs[i]);
      RecordRead(file, crc, EndOf(crc, recs, i), true, recs[i], scratch, inFragment);
      ReadBehind(crc, recs, file, lo, hi, i + 1, [], false);
      assert [] + recs[i] == recs[i] && recs[i..] == [recs[i]] + recs[i + 1..];
    } else {
      assert recs[..i] == recs && recs[i..] == [];
      NothingBehind(file, crc, EndOf(crc, recs, i), scratch, inFragment);
    }
  }

  /** Where reading gets to the header at hi, and with what. */
  datatype Reached = Reached(p: nat, scratch: Bytes, inFragment: bool, read: seq<Bytes>)

  ghost predicate Gets(file: Bytes, crc: Crc, p: nat, scratch: Bytes, inFragment: bool, to: Reached) {
    ReadOn(file, crc, p, scratch, inFragment).0 == to.read + ReadOn(file, crc, to.p, to.scratch, to.inFragment).0
  }

  lemma InsideBlock(file: Bytes, crc: Crc, p: nat, hi: nat)
    requires hi % BLOCK == 0 && hi <= |file| && HeaderAt(p) < hi && NoFalseEnd(file, crc, p, hi)
    ensures var s := PhysicalAt(file, crc, p); s.code != EOF && p < s.next && HeaderAt(s.next) <= hi
  {
    hide RecordAt;
    hide Unmask;
    hide DecodeFixed32;
    var q, s := HeaderAt(p), PhysicalAt(file, crc, p);
    HeaderFits(p);
    UpToBlock(q, hi);
    SeenIsIntact(file, crc, p);
    HeaderUpTo(s.next, hi);
  }

  lemma UpToBlock(q: nat, hi: nat)
    requires hi % BLOCK == 0 && q < hi
    ensures BlockEnd(q) <= hi
    ensures q % BLOCK + HEADER <= BLOCK ==> q + HEADER <= hi
  {
    assert hi == hi / BLOCK * BLOCK && q == q / BLOCK * BLOCK + q % BLOCK;
    assert q / BLOCK < hi / BLOCK;
  }

  lemma HeaderUpTo(p: nat, hi: nat)
    requires hi % BLOCK == 0 && p <= hi
    ensures HeaderAt(p) <= hi
  {
    if p < hi { UpToBlock(p, hi); }
    assert p == p / BLOCK * BLOCK + p % BLOCK;
  }

  lemma {:induction false} GetsToBlock(file: Bytes, crc: Crc, p: nat, scratch: Bytes, inFragment: bool, hi: nat)
    returns (to: Reached)
    requires hi % BLOCK == 0 && hi <= |file| && HeaderAt(p) <= hi && NoFalseEnd(file, crc, p, hi)
    ensures HeaderAt(to.p) == hi && Gets(file, crc, p, scratch, inFragment, to)
    decreases |file| - p
  {
    hide PhysicalAt;
    hide HeaderAt;
    hide RecordAt;
    if HeaderAt(p) == hi {
      to := Reached(p, scratch, inFragment, []);
    } else {
      var s := PhysicalAt(file, crc, p);
      InsideBlock(file, crc, p, hi);
      SeenByType(file, crc, p);
      match Assemble(s.code, s.fragment, scratch, inFragment)
      case Done(r, _) =>
        to := GetsToBlock(file, crc, s.next, [], false, hi);
        Assoc([r], to.read, ReadOn(file, crc, to.p, to.scratch, to.inFragment).0);
        to := to.(read := [r] + to.read);
      case More(scratch', inFragment', _) =>
        to := GetsToBlock(file, crc, s.next, scratch', inFragment', hi);
    }
  }

  /** A record that goes on behind hi has a fragment whose header is there. */
  lemma {:induction false} SpansBlock(log: Bytes, crc: Crc, p: nat, begin: bool, left: Bytes, hi: nat)
    returns (q: nat, begin': bool, left': Bytes)
    requires EmitsAt(log, p, crc, begin, left) && hi % BLOCK == 0 && HeaderAt(p) <= hi < EmitEnd(p, crc, begin, left)
    ensures EmitsAt(log, q, crc, begin', left') && HeaderAt(q) == hi
    ensures EmitEnd(q, crc, begin', left') == EmitEnd(p, crc, begin, left)
    decreases |left|, if FragmentLength(p, left) == 0 then 1 else 0
  {
    hide EmitsAt;
    hide Emit;
    hide RecordAt;
    q, begin', left' := p, begin, left;
    if HeaderAt(p) < hi {
      var n := FragmentLength(p, left);
      FirstFragment(log, p, crc, begin, left);
      EmitLength(crc, p, begin, left);
      NextUpTo(p, left, hi);
      NextNotEmpty(p, left);
      q, begin', left' := SpansBlock(log, crc, NextAt(p, left), false, left[n..], hi);
    }
  }

  lemma NextUpTo(p: nat, data: Bytes, hi: nat)
    requires hi % BLOCK == 0 && HeaderAt(p) < hi
    ensures NextAt(p, data) <= hi && HeaderAt(NextAt(p, data)) <= hi
  {
    hide BlockEnd;
    HeaderFits(p);
    UpToBlock(HeaderAt(p), hi);
    FragmentInBlock(p, data);
    HeaderUpTo(NextAt(p, data), hi);
  }

  lemma FragmentInBlock(p: nat, data: Bytes)
    ensures NextAt(p, data) <= BlockEnd(HeaderAt(p))
  {
    HeaderFits(p);
    BlockOf(HeaderAt(p), HEADER + FragmentLength(p, data));
  }

  /** Its fragments from there on are read over. */
  lemma {:induction false} ReadOver(log: Bytes, file: Bytes, lo: nat, hi: nat, crc: Crc, q: nat, begin: bool,
                                    left: Bytes, scratch: Bytes, inFragment: bool) returns (to: Reached)
    requires Damaged(log, file, lo, hi) && EmitsAt(log, q, crc, begin, left) && HeaderAt(q) >= hi
    ensures to.p == EmitEnd(q, crc, begin, left) && Gets(file, crc, q, scratch, inFragment, to)
    decreases |left|, if FragmentLength(q, left) == 0 then 1 else 0
  {
    hide EmitsAt;
    hide Emit;
    hide RecordAt;
    hide Damaged;
    hide PhysicalAt;
    hide ReadOn;
    hide FragmentLength;
    var n := FragmentLength(q, left);
    var t := TypeOf(begin, n == |left|);
    FirstFragment(log, q, crc, begin, left);
    EmitLength(crc, q, begin, left);
    StillIntact(log, file, lo, hi, crc, q, t, left[..n]);
    SeenWhole(file, crc, q, t, left[..n]);
    ReadStep(file, crc, q, scratch, inFragment);
    var read, scratch', inFragment' := AfterFragment(t, left[..n], scratch, inFragment);
    to := Reached(NextAt(q, left), scratch', inFragment', []);
    if n < |left| {
      NextNotEmpty(q, left);
      NextHeader(q, left, hi);
      to := ReadOver(log, file, lo, hi, crc, NextAt(q, left), false, left[n..], scratch', inFragment');
    }
    Assoc(read, to.read, ReadOn(file, crc, to.p, to.scratch, to.inFragment).0);
    assert read + [] == read && [] + to.read == to.read;
    to := to.(read := read + to.read);
  }

  lemma AfterFragment(t: Byte, fragment: Bytes, scratch: Bytes, inFragment: bool)
    returns (read: seq<Bytes>, scratch': Bytes, inFragment': bool)
    requires 1 <= t <= 4
    ensures match Assemble(t as int, fragment, scratch, inFragment)
            case Done(r, _) => read == [r] && scratch' == [] && !inFragment'
            case End => false
            case More(s, f, _) => read == [] && scratch' == s && inFragment' == f
  {
    match Assemble(t as int, fragment, scratch, inFragment)
    case Done(r, _) => read, scratch', inFragment' := [r], [], false;
    case More(s, f, _) => read, scratch', inFragment' := [], s, f;
  }

  lemma NextHeader(q: nat, data: Bytes, hi: nat)
    requires HeaderAt(q) >= hi
    ensures HeaderAt(NextAt(q, data)) >= hi
  {
    HeaderFits(NextAt(q, data));
  }

  lemma StillIntact(log: Bytes, file: Bytes, lo: nat, hi: nat, crc: Crc, q: nat, t: Byte, data: Bytes)
    requires Damaged(log, file, lo, hi) && RecordAt(log, q, crc, t, data) && HeaderAt(q) >= hi
    ensures RecordAt(file, q, crc, t, data)
  {
    hide Physical;
    SameBehind(log, file, hi, HeaderAt(q), HeaderAt(q) + HEADER + |data|);
  }

  /** The bytes before a header do not matter. */
  lemma SameHeader(file: Bytes, crc: Crc, p: nat, q: nat, scratch: Bytes, inFragment: bool)
    requires HeaderAt(p) == HeaderAt(q)
    ensures ReadOn(file, crc, p, scratch, inFragment) == ReadOn(file, crc, q, scratch, inFragment)
  {
  }

  lemma WholeLog(crc: Crc, recs: seq<Bytes>)
    ensures EndOf(crc, recs, |recs|) == |LogOf(crc, recs)|
  {
    hide LogOf;
    assert recs[..|recs|] == recs;
  }

  /** The first record that starts at hi or behind it. */
  ghost function FirstFrom(crc: Crc, recs: seq<Bytes>, hi: nat, i: nat): (b: nat)
    requires hi <= |LogOf(crc, recs)| && i <= |recs| && forall j :: 0 <= j < i ==> EndOf(crc, recs, j) < hi
    ensures b <= |recs| && EndOf(crc, recs, b) >= hi && forall j :: 0 <= j < b ==> EndOf(crc, recs, j) < hi
    decreases |recs| - i
  {
    WholeLog(crc, recs);
    if EndOf(crc, recs, i) >= hi then i else FirstFrom(crc, recs, hi, i + 1)
  }

  /** From the header at hi on, all records that start behind it are read. */
  lemma ReadFromBlock(crc: Crc, recs: seq<Bytes>, file: Bytes, lo: nat, hi: nat, from: Reached, b: nat)
    returns (more: seq<Bytes>)
    requires Damaged(LogOf(crc, recs), file, lo, hi) && HeaderAt(from.p) == hi
    requires b <= |recs| && EndOf(crc, recs, b) >= hi && forall j :: 0 <= j < b ==> EndOf(crc, recs, j) < hi
    ensures ReadOn(file, crc, from.p, from.scratch, from.inFragment).0 == more + recs[b..]
  {
    hide LogOf;
    hide EmitsAt;
    hide EmitEnd;
    hide ReadOn;
    hide HeaderAt;
    hide Damaged;
    var log, end := LogOf(crc, recs), EndOf(crc, recs, b);
    more := [];
    if b == 0 || end == hi {
      NothingYet(crc, recs);
      AtBlock(lo, hi, log, file);
      SameHeader(file, crc, from.p, end, from.scratch, from.inFragment);
      ReadBehind(crc, recs, file, lo, hi, b, from.scratch, from.inFragment);
    } else {
      var p := EndOf(crc, recs, b - 1);
      AtBlock(lo, hi, log, file);
      HeaderUpTo(p, hi);
      RecordInLog(crc, recs, b - 1);
      var q, begin, left := SpansBlock(log, crc, p, true, recs[b - 1], hi);
      SameHeader(file, crc, from.p, q, from.scratch, from.inFragment);
      var to := ReadOver(log, file, lo, hi, crc, q, begin, left, from.scratch, from.inFragment);
      ReadBehind(crc, recs, file, lo, hi, b, to.scratch, to.inFragment);
      more := to.read;
    }
  }

  lemma AtBlock(lo: nat, hi: nat, log: Bytes, file: Bytes)
    requires Damaged(log, file, lo, hi)
    ensures hi % BLOCK == 0 && lo <= hi <= |file| == |log| && HeaderAt(hi) == hi
  {
  }

  /** Whatever has become of the bytes from lo to hi: every record that ends up to lo and
      every one that starts from hi on is read, in order.  (What comes between them is
      intact in the sense above.) */
  lemma DamageIsLocal(crc: Crc, recs: seq<Bytes>, file: Bytes, lo: nat, hi: nat) returns (between: seq<Bytes>)
    requires Damaged(LogOf(crc, recs), file, lo, hi)
    requires NoFalseEnd(file, crc, EndOf(crc, recs, Complete(crc, recs, lo)), hi)
    ensures ReadOn(file, crc, 0, [], false).0
         == recs[..Complete(crc, recs, lo)] + between + recs[FirstFrom(crc, recs, hi, 0)..]
  {
    hide LogOf;
    hide Complete;
    hide EmitsAt;
    hide EmitEnd;
    hide ReadOn;
    hide HeaderAt;
    hide Damaged;
    hide NoFalseEnd;
    hide FirstFrom;
    var log, a := LogOf(crc, recs), Complete(crc, recs, lo);
    AtBlock(lo, hi, log, file);
    var b := FirstFrom(crc, recs, hi, 0);
    CompleteIsLargest(crc, recs, lo, a);
    NothingYet(crc, recs);
    ReadBefore(crc, recs, file, lo, hi, 0, a);
    HeaderUpTo(EndOf(crc, recs, a), hi);
    var to := GetsToBlock(file, crc, EndOf(crc, recs, a), [], false, hi);
    var more := ReadFromBlock(crc, recs, file, lo, hi, to, b);
    between := to.read + more;
    assert recs[0..a] == recs[..a];
    assert recs[..a] + (to.read + (more + recs[b..])) == recs[..a] + between + recs[b..];
  }
}
