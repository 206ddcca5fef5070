/** The write-ahead log: fragmenting writer (db/log_writer.cc) and reader
    (db/log_reader.cc).  The checksum is any function of the bytes it covers. */
module LogFormat {
  import opened Bits
  import opened Coding

  type Crc = Bytes -> Word

  const BLOCK := 32768  // kBlockSize
  const HEADER := 7     // kHeaderSize: checksum (4), length (2), type (1)

  const ZERO: Byte := 0
  const FULL: Byte := 1
  const FIRST: Byte := 2
  const MIDDLE: Byte := 3
  const LAST: Byte := 4
  const EOF := 5  // kMaxRecordType + 1
  const BAD := 6  // kMaxRecordType + 2

  // ---- util/crc32c.h ----

  const MASK_DELTA := 0xa282ead8

  /** Rotate right by 15 bits and add a constant. */
  function Mask(crc: Word): Word {
    (crc / 0x8000 + crc % 0x8000 * 0x2_0000 + MASK_DELTA) % 0x1_0000_0000
  }

  function Unmask(masked: Word): Word {
    var rot := (masked - MASK_DELTA) % 0x1_0000_0000;
    rot / 0x2_0000 + rot % 0x2_0000 * 0x8000
  }

  /** The masked checksum is the checksum rotated right by 15 bits plus the constant, in 32
      bits. */
  lemma MaskRotates(crc: Word, rotated: Word)
    requires forall i: nat :: i < 32 ==> (BitOf(rotated, i) <==> BitOf(crc, (i + 15) % 32))
    ensures Mask(crc) == (rotated + 0xa282ead8) % 0x1_0000_0000
  {
    hide BitOf;
    forall i: nat | i < 32
      ensures BitOf(rotated, i) <==> BitOf(crc / 0x8000 + crc % 0x8000 * 0x2_0000, i)
    {
      RotatedBy15(crc, i);
    }
    SameWord(rotated, crc / 0x8000 + crc % 0x8000 * 0x2_0000);
  }

  lemma UnmaskMask(crc: Word)
    ensures Unmask(Mask(crc)) == crc
  {
    var hi, lo := crc / 0x8000, crc % 0x8000;
    var rot := hi + lo * 0x2_0000;
    assert (Mask(crc) - MASK_DELTA) % 0x1_0000_0000 == rot;
    assert rot / 0x2_0000 == lo && rot % 0x2_0000 == hi;
  }

  lemma MaskUnmask(masked: Word)
    ensures Mask(Unmask(masked)) == masked
  {
    var rot := (masked - MASK_DELTA) % 0x1_0000_0000;
    var crc := Unmask(masked);
    assert crc / 0x8000 == rot % 0x2_0000 && crc % 0x8000 == rot / 0x2_0000;
    assert crc / 0x8000 + crc % 0x8000 * 0x2_0000 == rot;
  }

  // ---- layout ----

  /** Where the next header goes: never in the last six bytes of a block. */
  function HeaderAt(p: nat): nat {
    if BLOCK - p % BLOCK < HEADER then p + (BLOCK - p % BLOCK) else p
  }

  function Avail(q: nat): nat
    requires q % BLOCK + HEADER <= BLOCK
  { BLOCK - q % BLOCK - HEADER }

  lemma HeaderFits(p: nat)
    ensures p <= HeaderAt(p) < p + HEADER && HeaderAt(p) % BLOCK + HEADER <= BLOCK
  {
  }

  /** A header goes where the last fragment ended, unless fewer than seven bytes are left in
      its block of 32 KB; then at the start of the next one. */
  lemma HeaderIs(p: nat)
    ensures var left := 32768 - p % 32768; HeaderAt(p) == if left < 7 then p + left else p
  {
  }

  function Physical(crc: Crc, t: Byte, data: Bytes): (bs: Bytes)
    requires |data| <= 0xffff
    ensures |bs| == HEADER + |data|
  {
    Fixed32(Mask(crc([t] + data))) + [|data| % 256, |data| / 256, t] + data
  }

  function TypeOf(begin: bool, end: bool): Byte {
    if begin && end then FULL else if begin then FIRST else if end then LAST else MIDDLE
  }

  function FragmentLength(p: nat, data: Bytes): (n: nat)
    ensures n <= |data| && n <= 0xffff
  {
    HeaderFits(p);
    var a := Avail(HeaderAt(p));
    if |data| < a then |data| else a
  }

  /** A fragment takes all of the data, or all that is left of the block behind its header. */
  lemma FragmentIsLargest(p: nat, data: Bytes)
    ensures var q, n := HeaderAt(p), FragmentLength(p, data);
            q % 32768 + 7 + n <= 32768 && (n < |data| ==> q % 32768 + 7 + n == 32768)
  {
    HeaderFits(p);
  }

  /** What the writer appends for the rest of a record when the file is p bytes long. */
  function Emit(crc: Crc, p: nat, begin: bool, data: Bytes): Bytes
    decreases |data|, if FragmentLength(p, data) == 0 then 1 else 0
  {
    var q := HeaderAt(p);
    var n := FragmentLength(p, data);
    var piece := Zeros(q - p) + Physical(crc, TypeOf(begin, n == |data|), data[..n]);
    if n == |data| then piece
    else
      AfterEmptyFragment(p, data);
      piece + Emit(crc, q + HEADER + n, false, data[n..])
  }

  /** An empty first fragment fills its block, so the next fragment is not empty. */
  lemma AfterEmptyFragment(p: nat, data: Bytes)
    ensures FragmentLength(p, data) == 0 && data != [] ==> FragmentLength(HeaderAt(p) + HEADER, data) > 0
  {
    HeaderFits(p);
    var q := HeaderAt(p);
    if Avail(q) == 0 { assert (q + HEADER) % BLOCK == 0; }
  }

  lemma Assoc<T>(a: seq<T>, b: seq<T>, c: seq<T>)
    ensures (a + b) + c == a + (b + c)
  {
  }

  /** The next fragment, with the trailer before it. */
  function FirstPiece(crc: Crc, p: nat, begin: bool, data: Bytes): (bs: Bytes)
    ensures |bs| == HeaderAt(p) - p + HEADER + FragmentLength(p, data)
  {
    HeaderFits(p);
    var n := FragmentLength(p, data);
    Zeros(HeaderAt(p) - p) + Physical(crc, TypeOf(begin, n == |data|), data[..n])
  }

  function Remaining(crc: Crc, p: nat, left: Bytes): Bytes { if |left| > 0 then Emit(crc, p, false, left) else [] }

  lemma EmitUnfold(crc: Crc, p: nat, begin: bool, data: Bytes)
    ensures var piece := FirstPiece(crc, p, begin, data);
            Emit(crc, p, begin, data) == piece + Remaining(crc, p + |piece|, data[FragmentLength(p, data)..])
  {
    hide Physical;
    HeaderFits(p);
  }

  /** A file ending where the record goes on: one fragment, then the rest. */
  lemma EmitFirst(crc: Crc, file: Bytes, begin: bool, data: Bytes)
    ensures var file' := file + FirstPiece(crc, |file|, begin, data);
            file' + Remaining(crc, |file'|, data[FragmentLength(|file|, data)..])
                == file + Emit(crc, |file|, begin, data)
  {
    hide Emit;
    hide FirstPiece;
    hide Remaining;
    hide HeaderAt;
    hide FragmentLength;
    EmitUnfold(crc, |file|, begin, data);
    var piece := FirstPiece(crc, |file|, begin, data);
    var rest := Remaining(crc, |file| + |piece|, data[FragmentLength(|file|, data)..]);
    assert |file + piece| == |file| + |piece|;
    Assoc(file, piece, rest);
  }

  function LogOf(crc: Crc, recs: seq<Bytes>): Bytes {
    if recs == [] then []
    else
      var front := LogOf(crc, recs[..|recs| - 1]);
      front + Emit(crc, |front|, true, recs[|recs| - 1])
  }

  function Measure(p: nat, left: Bytes): nat { 2 * |left| + if FragmentLength(p, left) == 0 then 1 else 0 }

  lemma FragmentProgress(p: nat, left: Bytes)
    requires left != []
    ensures var n := FragmentLength(p, left);
            forall q :: q == HeaderAt(p) + HEADER + n ==> Measure(q, left[n..]) < Measure(p, left)
  {
    AfterEmptyFragment(p, left);
  }

  // ---- the writer ----

  class Writer {
    const crc: Crc
    var dest: Bytes        // the file
    var blockOffset: nat

    ghost predicate Valid()
      reads this
    { blockOffset <= BLOCK && blockOffset % BLOCK == |dest| % BLOCK }

    /** A writer on a new file, or reopened on a file of some length. */
    constructor (crc: Crc, dest: Bytes)
      ensures Valid() && this.crc == crc && this.dest == dest
    {
      this.crc, this.dest := crc, dest;
      blockOffset := |dest| % BLOCK;
    }

    /** AddRecord: emit one fragment after another, at least one. */
    method AddRecord(slice: Bytes)
      requires Valid()
      modifies this
      ensures Valid() && dest == old(dest) + Emit(crc, |old(dest)|, true, slice)
    {
      EmitFirst(crc, dest, true, slice);
      var left := EmitFragment(true, slice);
      while |left| > 0
        invariant Valid() && dest + Remaining(crc, |dest|, left) == old(dest) + Emit(crc, |old(dest)|, true, slice)
        decreases Measure(|dest|, left)
      {
        FragmentProgress(|dest|, left);
        EmitFirst(crc, dest, false, left);
        left := EmitFragment(false, left);
      }
    }

    /** Fill the trailer and start a new block if the header does not fit. */
    method SwitchBlock()
      requires Valid()
      modifies this
      ensures Valid() && blockOffset == |dest| % BLOCK && |dest| == HeaderAt(|old(dest)|)
      ensures dest == old(dest) + Zeros(HeaderAt(|old(dest)|) - |old(dest)|)
    {
      var leftover := BLOCK - blockOffset;
      if leftover < HEADER {
        if leftover > 0 {
          dest := dest + Zeros(leftover);
        }
        blockOffset := 0;
      }
    }

    /** One turn of the loop: write as much as the block takes. */
    method EmitFragment(begin: bool, left: Bytes) returns (rest: Bytes)
      requires Valid()
      modifies this
      ensures Valid() && dest == old(dest) + FirstPiece(crc, |old(dest)|, begin, left)
      ensures |dest| == HeaderAt(|old(dest)|) + HEADER + FragmentLength(|old(dest)|, left)
      ensures rest == left[FragmentLength(|old(dest)|, left)..]
    {
      HeaderFits(|dest|);
      SwitchBlock();
      var avail := BLOCK - blockOffset - HEADER;
      var n := if |left| < avail then |left| else avail;
      EmitPhysicalRecord(TypeOf(begin, |left| == n), left[..n]);
      rest := left[n..];
    }

    method EmitPhysicalRecord(t: Byte, data: Bytes)
      requires Valid() && blockOffset + HEADER + |data| <= BLOCK && blockOffset == |dest| % BLOCK
      modifies this
      ensures Valid() && dest == old(dest) + Physical(crc, t, data)
    {
      hide Fixed32;
      hide Mask;
      var header := Fixed32(Mask(crc([t] + data))) + [|data| % 256, |data| / 256, t];
      dest := dest + header;
      dest := dest + data;
      blockOffset := blockOffset + HEADER + |data|;
    }
  }

  // ---- what lies where in a log ----

  /** A physical record written when the log was p bytes long. */
  ghost predicate RecordAt(log: Bytes, p: nat, crc: Crc, t: Byte, data: Bytes) {
    var q := HeaderAt(p);
    && q % BLOCK + HEADER + |data| <= BLOCK && q + HEADER + |data| <= |log|
    && log[q..q + HEADER + |data|] == Physical(crc, t, data)
  }

  ghost predicate EmitsAt(log: Bytes, p: nat, crc: Crc, begin: bool, data: Bytes) {
    var bs := Emit(crc, p, begin, data);
    p + |bs| <= |log| && log[p..p + |bs|] == bs
  }

  ghost function EmitEnd(p: nat, crc: Crc, begin: bool, data: Bytes): nat { p + |Emit(crc, p, begin, data)| }

  lemma SplitSlice(log: Bytes, p: nat, a: Bytes, b: Bytes)
    requires p + |a| + |b| <= |log| && log[p..p + |a| + |b|] == a + b
    ensures log[p..p + |a|] == a && log[p + |a|..p + |a| + |b|] == b
  {
    var both := log[p..p + |a| + |b|];
    assert both[..|a|] == a && both[|a|..] == b;
    assert log[p..p + |a|] == both[..|a|] && log[p + |a|..p + |a| + |b|] == both[|a|..];
  }

  lemma PieceAt(log: Bytes, p: nat, crc: Crc, begin: bool, data: Bytes)
    requires var piece := FirstPiece(crc, p, begin, data); p + |piece| <= |log| && log[p..p + |piece|] == piece
    ensures var n := FragmentLength(p, data); RecordAt(log, p, crc, TypeOf(begin, n == |data|), data[..n])
  {
    HeaderFits(p);
    var n := FragmentLength(p, data);
    SplitSlice(log, p, Zeros(HeaderAt(p) - p), Physical(crc, TypeOf(begin, n == |data|), data[..n]));
  }

  /** Where the file ends after the next fragment. */
  function NextAt(p: nat, data: Bytes): nat { HeaderAt(p) + HEADER + FragmentLength(p, data) }

  lemma EmitLength(crc: Crc, p: nat, begin: bool, data: Bytes)
    ensures EmitEnd(p, crc, begin, data) == NextAt(p, data)
            + |Remaining(crc, NextAt(p, data), data[FragmentLength(p, data)..])|
    ensures p < NextAt(p, data) <= EmitEnd(p, crc, begin, data)
  {
    HeaderFits(p);
    EmitUnfold(crc, p, begin, data);
  }

  lemma FirstAndRest(log: Bytes, p: nat, crc: Crc, begin: bool, data: Bytes)
    requires EmitsAt(log, p, crc, begin, data)
    ensures var piece, rest := FirstPiece(crc, p, begin, data),
            Remaining(crc, NextAt(p, data), data[FragmentLength(p, data)..]);
            && p + |piece| == NextAt(p, data) && NextAt(p, data) + |rest| <= |log|
            && log[p..p + |piece|] == piece && log[NextAt(p, data)..NextAt(p, data) + |rest|] == rest
  {
    hide Emit;
    hide FirstPiece;
    hide Remaining;
    hide FragmentLength;
    hide HeaderAt;
    EmitUnfold(crc, p, begin, data);
    var piece := FirstPiece(crc, p, begin, data);
    SplitSlice(log, p, piece, Remaining(crc, p + |piece|, data[FragmentLength(p, data)..]));
  }

  /** A record in the log starts with a fragment, and the rest follows it. */
  lemma FirstFragment(log: Bytes, p: nat, crc: Crc, begin: bool, data: Bytes)
    requires EmitsAt(log, p, crc, begin, data)
    ensures var n := FragmentLength(p, data); RecordAt(log, p, crc, TypeOf(begin, n == |data|), data[..n])
    ensures FragmentLength(p, data) < |data| ==>
              EmitsAt(log, NextAt(p, data), crc, false, data[FragmentLength(p, data)..])
  {
    FirstAndRest(log, p, crc, begin, data);
    PieceAt(log, p, crc, begin, data);
  }

  lemma ParsePhysical(crc: Crc, t: Byte, data: Bytes, tail: Bytes)
    requires |data| <= 0xffff
    ensures var bs := Physical(crc, t, data) + tail;
            && bs[4] as int + bs[5] as int * 256 == |data| && bs[6] == t
            && Unmask(DecodeFixed32(bs)) == crc(bs[6..HEADER + |data|])
            && bs[HEADER..HEADER + |data|] == data
  {
    var bs := Physical(crc, t, data) + tail;
    Fixed32RoundTrip(Mask(crc([t] + data)));
    UnmaskMask(crc([t] + data));
    assert bs[..4] == Fixed32(Mask(crc([t] + data)));
    assert bs[6..HEADER + |data|] == [t] + data;
  }

  /** The unread part of a full block. */
  lemma InFullBlock(filePos: nat, b: nat)
    requires filePos % BLOCK == 0 && b <= filePos && b <= BLOCK
    ensures b < HEADER ==> HeaderAt(filePos - b) == filePos
    ensures b >= HEADER ==>
              HeaderAt(filePos - b) == filePos - b
              && (filePos - b) % BLOCK == (if b == BLOCK then 0 else BLOCK - b)
  {
  }

  /** The unread part of the last, short block. */
  lemma InLastBlock(n: nat, b: nat)
    requires b <= n % BLOCK
    ensures (n - b) % BLOCK == n % BLOCK - b
    ensures if b < HEADER then n < HeaderAt(n - b) + HEADER else HeaderAt(n - b) == n - b
  {
    ModSub(n, b);
  }

  lemma ModSub(n: nat, b: nat)
    requires b <= n % BLOCK
    ensures (n - b) % BLOCK == n % BLOCK - b
  {
    assert n == n / BLOCK * BLOCK + n % BLOCK;
    assert n - b == n / BLOCK * BLOCK + (n % BLOCK - b);
  }

  // ---- what a file holds, damaged or not ----

  /** What ReadPhysicalRecord makes of the bytes: type and payload, or EOF, or BAD; where it
      goes on, and how many bytes it reports as dropped. */
  datatype Seen = Seen(code: nat, fragment: Bytes, next: nat, report: seq<nat>)

  function BlockEnd(q: nat): (end: nat)
    ensures q < end <= q + BLOCK && end % BLOCK == 0
  { (q / BLOCK + 1) * BLOCK }

  function PhysicalAt(file: Bytes, crc: Crc, p: nat): (r: Seen)
    ensures r.code != EOF ==> p < r.next <= |file|
  {
    HeaderFits(p);
    if |file| < HeaderAt(p) + HEADER then Seen(EOF, [], |file|, []) else ParsedAt(file, crc, HeaderAt(p))
  }

  /** The header at q can be read; a bad record takes the rest of its block with it. */
  function ParsedAt(file: Bytes, crc: Crc, q: nat): (r: Seen)
    requires q + HEADER <= |file|
    ensures q < r.next <= |file|
  {
    var end := if BlockEnd(q) <= |file| then BlockEnd(q) else |file|;
    var n := file[q + 4] as int + file[q + 5] as int * 256;
    if q + HEADER + n > end then
      if |file| < BlockEnd(q) then Seen(EOF, [], |file|, []) else Seen(BAD, [], end, [end - q])
    else if file[q + 6] == ZERO && n == 0 then Seen(BAD, [], end, [])
    else if crc(file[q + 6..q + HEADER + n]) != Unmask(DecodeFixed32(file[q..])) then Seen(BAD, [], end, [end - q])
    else Seen(file[q + 6] as int, file[q + HEADER..q + HEADER + n], q + HEADER + n, [])
  }

  /** The same in terms of the bytes left in the buffer. */
  function ParsedBuffer(crc: Crc, b: Bytes, eof: bool, q: nat): Seen
    requires |b| >= HEADER
  {
    var n := b[4] as int + b[5] as int * 256;
    if HEADER + n > |b| then
      if eof then Seen(EOF, [], q + |b|, []) else Seen(BAD, [], q + |b|, [|b|])
    else if b[6] == ZERO && n == 0 then Seen(BAD, [], q + |b|, [])
    else if crc(b[6..HEADER + n]) != Unmask(DecodeFixed32(b)) then Seen(BAD, [], q + |b|, [|b|])
    else Seen(b[6] as int, b[HEADER..HEADER + n], q + HEADER + n, [])
  }

  /** What ReadRecord does with one physical record. */
  datatype Assembled = Done(record: Bytes, report: seq<nat>) | End
      | More(scratch: Bytes, inFragment: bool, report: seq<nat>)

  function Assemble(code: nat, fragment: Bytes, scratch: Bytes, inFragment: bool): Assembled {
    match code
    case 1 =>  // kFullType
      Done(fragment, if inFragment && |scratch| > 0 then [|scratch|] else [])
    case 2 =>  // kFirstType
      More(fragment, true, if inFragment && |scratch| > 0 then [|scratch|] else [])
    case 3 =>  // kMiddleType
      if inFragment then More(scratch + fragment, true, []) else More(scratch, false, [|fragment|])
    case 4 =>  // kLastType
      if inFragment then Done(scratch + fragment, []) else More(scratch, false, [|fragment|])
    case 5 =>  // kEof
      End
    case 6 =>  // kBadRecord
      if inFragment then More([], false, [|scratch|]) else More(scratch, false, [])
    case _ =>  // unknown record type
      More([], false, [|fragment| + if inFragment then |scratch| else 0])
  }

  /** All that is read of a file from p on: the records, and the bytes reported as dropped. */
  function ReadOn(file: Bytes, crc: Crc, p: nat, scratch: Bytes, inFragment: bool): (seq<Bytes>, seq<nat>)
    decreases |file| - p
  {
    var s := PhysicalAt(file, crc, p);
    match Assemble(s.code, s.fragment, scratch, inFragment)
    case Done(r, report) =>
      var rest := ReadOn(file, crc, s.next, [], false);
      ([r] + rest.0, s.report + report + rest.1)
    case End => ([], s.report)
    case More(scratch', inFragment', report) =>
      var rest := ReadOn(file, crc, s.next, scratch', inFragment');
      (rest.0, s.report + report + rest.1)
  }

  /** One turn of the loop in ReadRecord, with what was reported before. */
  lemma ReadTurn(file: Bytes, crc: Crc, p: nat, scratch: Bytes, inFragment: bool, told: seq<nat>, more: seq<nat>)
    requires var s := PhysicalAt(file, crc, p); var step := Assemble(s.code, s.fragment, scratch, inFragment);
             more == s.report + (if step.End? then [] else step.report)
    ensures var s := PhysicalAt(file, crc, p);
            var all := ReadOn(file, crc, p, scratch, inFragment);
            match Assemble(s.code, s.fragment, scratch, inFragment)
            case Done(r, _) =>
              var rest := ReadOn(file, crc, s.next, [], false);
              (all.0, told + all.1) == ([r] + rest.0, told + more + rest.1)
            case End => (all.0, told + all.1) == ([], told + more)
            case More(scratch', inFragment', _) =>
              var rest := ReadOn(file, crc, s.next, scratch', inFragment');
              (all.0, told + all.1) == (rest.0, told + more + rest.1)
  {
    hide PhysicalAt;
    hide Assemble;
    var s := PhysicalAt(file, crc, p);
    var step := Assemble(s.code, s.fragment, scratch, inFragment);
    match step
    case Done(_, _) => Assoc(told, more, ReadOn(file, crc, s.next, [], false).1);
    case End => assert s.report + [] == s.report;
    case More(scratch', inFragment', _) => Assoc(told, more, ReadOn(file, crc, s.next, scratch', inFragment').1);
  }

  // ---- the reader ----

  class Reader {
    const crc: Crc
    const file: Bytes
    var filePos: nat        // how much of the file has been read; end_of_buffer_offset_
    var buffer: Bytes
    var eof: bool
    var reports: seq<nat>   // bytes reported as corrupted

    ghost predicate Valid()
      reads this
    {
      && |buffer| <= filePos <= |file| && buffer == file[filePos - |buffer|..filePos]
      && (if eof then filePos == |file| && |buffer| <= |file| % BLOCK else filePos % BLOCK == 0 && |buffer| <= BLOCK)
    }

    ghost function Pos(): nat
      reads this
      requires |buffer| <= filePos
    { filePos - |buffer| }

    constructor (crc: Crc, file: Bytes)
      ensures Valid() && Pos() == 0 && reports == [] && this.crc == crc && this.file == file
    {
      this.crc, this.file := crc, file;
      filePos, buffer, eof, reports := 0, [], false, [];
    }

    /** Read blocks until a header fits; a shorter rest is a trailer, or the end. */
    method FillBuffer() returns (more: bool)
      requires Valid()
      modifies this
      ensures Valid() && reports == old(reports)
      ensures more ==> |buffer| >= HEADER && Pos() == HeaderAt(old(Pos()))
      ensures !more ==> |file| < HeaderAt(old(Pos())) + HEADER && Pos() == |file|
    {
      hide HeaderAt;
      ghost var p := Pos();
      while |buffer| < HEADER
        invariant Valid() && reports == old(reports) && HeaderAt(Pos()) == HeaderAt(p)
        decreases !eof, |file| - filePos
      {
        if !eof {
          InFullBlock(filePos, |buffer|);
          InFullBlock(filePos, 0);
          ReadBlock();
        } else {
          InLastBlock(filePos, |buffer|);
          buffer := [];
          return false;
        }
      }
      if !eof { InFullBlock(filePos, |buffer|); } else { InLastBlock(filePos, |buffer|); }
      return true;
    }

    /** file_->Read of one block; a short read is the end of the file. */
    method ReadBlock()
      requires Valid() && !eof
      modifies this
      ensures Valid() && Pos() == old(filePos) && reports == old(reports)
      ensures eof || (|buffer| == BLOCK && filePos == old(filePos) + BLOCK)
    {
      var end := if filePos + BLOCK <= |file| then filePos + BLOCK else |file|;
      buffer := file[filePos..end];
      ghost var start := filePos;
      filePos := end;
      if |buffer| < BLOCK {
        eof := true;
        ShortRead(start, |file|);
      }
    }

    /** The rest of ReadPhysicalRecord: parse what starts at the buffer's front. */
    method ParseRecord() returns (code: nat, fragment: Bytes)
      requires Valid() && |buffer| >= HEADER && HeaderAt(Pos()) == Pos()
      modifies this
      ensures Valid() && old(Pos()) + HEADER <= |file|
      ensures var s := ParsedAt(file, crc, old(Pos()));
              code == s.code && fragment == s.fragment && Pos() == s.next && reports == old(reports) + s.report
    {
      hide Unmask;
      hide DecodeFixed32;
      hide ParsedAt;
      fragment := [];
      WhatIsBuffered();
      var length := buffer[4] as int + buffer[5] as int * 256;
      var kind := buffer[6];
      if HEADER + length > |buffer| {
        var drop := |buffer|;
        buffer := [];
        if !eof {
          reports := reports + [drop];  // bad record length
          return BAD, fragment;
        }
        return EOF, fragment;
      }
      if kind == ZERO && length == 0 {
        buffer := [];
        return BAD, fragment;
      }
      if crc(buffer[6..HEADER + length]) != Unmask(DecodeFixed32(buffer)) {
        reports := reports + [|buffer|];  // checksum mismatch
        buffer := [];
        return BAD, fragment;
      }
      code := kind;
      fragment := Take(length);
    }

    lemma WhatIsBuffered()
      requires Valid() && |buffer| >= HEADER
      ensures Pos() + HEADER <= |file| && ParsedAt(file, crc, Pos()) == ParsedBuffer(crc, buffer, eof, Pos())
    {
      hide Unmask;
      hide DecodeFixed32;
      hide BlockEnd;
      BufferedBlock();
      var q, n := Pos(), buffer[4] as int + buffer[5] as int * 256;
      if HEADER + n <= |buffer| {
        SubSlice(file, q, |buffer|, 6, HEADER + n);
        SubSlice(file, q, |buffer|, HEADER, HEADER + n);
      }
    }

    /** The buffer reaches to the end of its block, or of a file that ends in the block. */
    lemma BufferedBlock()
      requires Valid() && |buffer| >= HEADER
      ensures var q := Pos();
              && q + HEADER <= |file| && filePos == (if BlockEnd(q) <= |file| then BlockEnd(q) else |file|)
              && (eof <==> |file| < BlockEnd(q))
              && buffer[4] == file[q + 4] && buffer[5] == file[q + 5] && buffer[6] == file[q + 6]
              && DecodeFixed32(buffer) == DecodeFixed32(file[q..])
    {
      hide Unmask;
      var q := Pos();
      assert forall i :: 0 <= i < |buffer| ==> buffer[i] == file[q + i];
      if eof { ModSub(filePos, |buffer|); }
    }

    /** The payload at the front of the buffer. */
    method Take(length: nat) returns (fragment: Bytes)
      requires Valid() && HEADER + length <= |buffer|
      modifies this`buffer
      ensures Valid() && Pos() == old(Pos()) + HEADER + length && fragment == old(buffer[HEADER..HEADER + length])
    {
      fragment := buffer[HEADER..HEADER + length];
      buffer := buffer[HEADER + length..];
    }

    method ReadPhysicalRecord() returns (code: nat, fragment: Bytes)
      requires Valid()
      modifies this
      ensures Valid()
      ensures var s := PhysicalAt(file, crc, old(Pos()));
              code == s.code && fragment == s.fragment && Pos() == s.next && reports == old(reports) + s.report
    {
      hide ParsedAt;
      var more := FillBuffer();
      if !more { return EOF, []; }
      code, fragment := ParseRecord();
    }

    /** ReadRecord: put fragments together.  Reading the file from here on gives this record
        and what is read from there on, or nothing more. */
    method ReadRecord() returns (ok: bool, record: Bytes)
      requires Valid()
      modifies this
      ensures Valid() && (ok ==> Pos() > old(Pos())) && old(reports) <= reports
      ensures var told := reports[|old(reports)|..];
              ReadOn(file, crc, old(Pos()), [], false)
              == if ok then var rest := ReadOn(file, crc, Pos(), [], false); ([record] + rest.0, told + rest.1)
                 else ([], told)
    {
      hide PhysicalAt;
      hide Assemble;
      hide ReadOn;
      hide HeaderAt;
      ghost var all, told := ReadOn(file, crc, Pos(), [], false), [];
      var scratch: Bytes := [];
      var inFragment := false;
      assert [] + all.1 == all.1 && reports + [] == reports;
      while true
        invariant Valid() && Pos() >= old(Pos()) && reports == old(reports) + told
        invariant var rest := ReadOn(file, crc, Pos(), scratch, inFragment); all == (rest.0, told + rest.1)
        decreases |file| - Pos()
      {
        var step;
        ghost var p, before, more := Pos(), told, [];
        step, more := ReadFragment(scratch, inFragment);
        told := told + more;
        ReadTurn(file, crc, p, scratch, inFragment, before, more);
        assert reports[|old(reports)|..] == told;
        match step
        case Done(r, _) => return true, r;
        case End => return false, [];
        case More(s, f, _) => scratch, inFragment := s, f;
      }
    }

    /** One turn of ReadRecord's loop. */
    method ReadFragment(scratch: Bytes, inFragment: bool) returns (step: Assembled, ghost told: seq<nat>)
      requires Valid()
      modifies this
      ensures Valid() && (!step.End? ==> Pos() > old(Pos())) && reports == old(reports) + told
      ensures var s := PhysicalAt(file, crc, old(Pos()));
              && step == Assemble(s.code, s.fragment, scratch, inFragment) && Pos() == s.next
              && told == s.report + (if step.End? then [] else step.report)
    {
      hide PhysicalAt;
      ghost var before := Pos();
      var code, fragment := ReadPhysicalRecord();
      step := Assemble(code, fragment, scratch, inFragment);
      told := PhysicalAt(file, crc, before).report;
      if !step.End? {
        reports := reports + step.report;
        told := told + step.report;
      }
    }
  }

  lemma ShortRead(start: nat, n: nat)
    requires start % BLOCK == 0 && start <= n < start + BLOCK
    ensures n % BLOCK == n - start
  {
    assert start == start / BLOCK * BLOCK;
  }
}
