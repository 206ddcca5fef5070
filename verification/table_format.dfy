/** How blocks, their handles and the footer lie in a table file (table/format.cc,
    TableBuilder::WriteRawBlock). */
module TableFormat {
  import opened InternalKeys
  import opened Coding
  import opened Blocks
  import LogFormat

  type Crc = LogFormat.Crc

  // ---- handles ----

  /** A BlockHandle whose fields have been set. */
  datatype Handle = Handle(offset: Word64, size: Word64)

  function HandleBytes(h: Handle): Bytes { Varint(h.offset) + Varint(h.size) }

  method EncodeHandle(h: Handle) returns (bs: Bytes)
    ensures bs == HandleBytes(h) && |bs| <= 20
  {
    Varint64Fits(h.offset);
    Varint64Fits(h.size);
    var x := EncodeVarint64(h.offset);
    var y := EncodeVarint64(h.size);
    bs := x + y;
  }

  /** BlockHandle::DecodeFrom at p: the handle and where it ends. */
  function ParseHandle(data: Bytes, p: nat): Option<(Handle, nat)> {
    match DecodeVarint(data, p, |data|, 10)
    case None => None
    case Some(a) =>
      match DecodeVarint(data, a.1, |data|, 10)
      case None => None
      case Some(b) => Some((Handle(Low64(a.0), Low64(b.0)), b.1))
  }

  method DecodeHandle(data: Bytes, p: nat) returns (r: Option<(Handle, nat)>)
    ensures r == ParseHandle(data, p)
  {
    hide DecodeVarint;
    var next, offset := GetVarint64Ptr(data, p, |data|);
    if next == None { return None; }
    var next2, size := GetVarint64Ptr(data, next.value, |data|);
    if next2 == None { return None; }
    return Some((Handle(offset, size), next2.value));
  }

  lemma DecodeWord64(data: Bytes, p: nat, limit: nat, v: Word64)
    requires VarintAt(data, p, limit, v)
    ensures DecodeVarint(data, p, limit, 10) == Some((v, p + |Varint(v)|)) && Low64(v) == v
  {
    Varint64Fits(v);
    DecodeEncoded(data, p, limit, v, 10);
  }

  lemma HandleParses(data: Bytes, p: nat, h: Handle, rest: Bytes)
    requires p <= |data| && data[p..] == HandleBytes(h) + rest
    ensures ParseHandle(data, p) == Some((h, p + |HandleBytes(h)|))
  {
    hide Varint;
    hide DecodeVarint;
    hide Low64;
    var a, b, q := Varint(h.offset), Varint(h.size), p + |Varint(h.offset)|;
    assert data[p..] == a + (b + rest);
    assert data[p..q] == data[p..][..|a|];
    assert data[q..q + |b|] == data[p..][|a|..|a| + |b|];
    DecodeWord64(data, p, |data|, h.offset);
    DecodeWord64(data, q, |data|, h.size);
  }

  // ---- blocks in the file ----

  const TRAILER := 5  // kBlockTrailerSize
  const NO_COMPRESSION: Byte := 0
  const SNAPPY: Byte := 1

  /** A compressor may refuse. */
  datatype Codec = Codec(compress: Bytes -> Option<Bytes>, uncompress: Bytes -> Option<Bytes>)

  ghost predicate LawfulCodec(codec: Codec) {
    forall x :: codec.compress(x).Some? ==> codec.uncompress(codec.compress(x).value) == Some(x)
  }

  /** Contents, type, checksum of both. */
  function RawBlock(crc: Crc, contents: Bytes, compression: Byte): Bytes {
    contents + [compression] + Fixed32(LogFormat.Mask(crc(contents + [compression])))
  }

  /** What the stored bytes of this type stand for. */
  function Expand(codec: Codec, raw: Bytes, compression: Byte): Option<Bytes> {
    if compression == NO_COMPRESSION then Some(raw)
    else if compression == SNAPPY then codec.uncompress(raw)
    else None
  }

  ghost predicate StoredAs(crc: Crc, codec: Codec, file: Bytes, h: Handle, contents: Bytes, raw: Bytes,
                           compression: Byte) {
    && h.size == |raw| && h.offset + |raw| + TRAILER <= |file|
    && file[h.offset..h.offset + |raw| + TRAILER] == RawBlock(crc, raw, compression)
    && Expand(codec, raw, compression) == Some(contents)
  }

  ghost predicate Stored(crc: Crc, codec: Codec, file: Bytes, h: Handle, contents: Bytes) {
    exists raw, compression :: StoredAs(crc, codec, file, h, contents, raw, compression)
  }

  lemma StaysStored(crc: Crc, codec: Codec, file: Bytes, more: Bytes, h: Handle, contents: Bytes)
    requires Stored(crc, codec, file, h, contents)
    ensures Stored(crc, codec, file + more, h, contents)
  {
    var raw, compression :| StoredAs(crc, codec, file, h, contents, raw, compression);
    var end := h.offset + |raw| + TRAILER;
    assert (file + more)[h.offset..end] == file[h.offset..end];
    assert StoredAs(crc, codec, file + more, h, contents, raw, compression);
  }

  lemma JustStored(crc: Crc, codec: Codec, file: Bytes, h: Handle, contents: Bytes, raw: Bytes, compression: Byte)
    requires h.offset == |file| && h.size == |raw| && Expand(codec, raw, compression) == Some(contents)
    ensures Stored(crc, codec, file + RawBlock(crc, raw, compression), h, contents)
  {
    var file' := file + RawBlock(crc, raw, compression);
    assert file'[|file|..|file'|] == RawBlock(crc, raw, compression);
    assert StoredAs(crc, codec, file', h, contents, raw, compression);
  }

  /** The file holds some block there that uncompresses to the contents, whatever the
      checksum says. */
  ghost predicate Legible(codec: Codec, file: Bytes, h: Handle, contents: Bytes) {
    && h.offset + h.size + TRAILER <= |file|
    && Expand(codec, file[h.offset..h.offset + h.size], file[h.offset + h.size]) == Some(contents)
  }

  ghost predicate Readable(crc: Crc, codec: Codec, file: Bytes, verifyChecksums: bool, h: Handle, contents: Bytes) {
    if verifyChecksums then Stored(crc, codec, file, h, contents) else Legible(codec, file, h, contents)
  }

  /** ReadBlock: nothing when the read is short, the checksum or the type is wrong, or the
      contents do not uncompress; if the checksum is verified, exactly what was stored. */
  method ReadBlock(crc: Crc, codec: Codec, file: Bytes, verifyChecksums: bool, h: Handle) returns (r: Option<Bytes>)
    ensures forall contents :: Stored(crc, codec, file, h, contents) ==> r == Some(contents)
    ensures forall contents :: r == Some(contents) <==> Readable(crc, codec, file, verifyChecksums, h, contents)
  {
    var n := h.size;
    var from: nat := if h.offset < |file| then h.offset else |file|;
    var to := if from + n + TRAILER < |file| then from + n + TRAILER else |file|;
    var data := file[from..to];
    r := None;
    if |data| == n + TRAILER {
      var actual := crc(data[..n + 1]);
      if !verifyChecksums || actual == LogFormat.Unmask(DecodeFixed32(data[n + 1..])) {
        r := Expand(codec, data[..n], data[n]);
      }
    }
    forall contents | Stored(crc, codec, file, h, contents) ensures r == Some(contents) {
      var raw, compression :| StoredAs(crc, codec, file, h, contents, raw, compression);
      assert data == RawBlock(crc, raw, compression);
      TakeApart(crc, raw, compression);
    }
    if |data| == n + TRAILER {
      assert data == file[h.offset..h.offset + n + TRAILER];
      assert data[..n] == file[h.offset..h.offset + n];
      if verifyChecksums && r.Some? { Verified(crc, codec, file, h, data, r.value); }
    }
  }

  /** A right checksum is the one that was written. */
  lemma Verified(crc: Crc, codec: Codec, file: Bytes, h: Handle, data: Bytes, contents: Bytes)
    requires h.offset + h.size + TRAILER <= |file| && data == file[h.offset..h.offset + h.size + TRAILER]
    requires var n := h.size; crc(data[..n + 1]) == LogFormat.Unmask(DecodeFixed32(data[n + 1..]))
                              && Expand(codec, data[..n], data[n]) == Some(contents)
    ensures Stored(crc, codec, file, h, contents)
  {
    var n := h.size;
    var raw, compression, sum := data[..n], data[n], data[n + 1..];
    assert data[..n + 1] == raw + [compression];
    LogFormat.MaskUnmask(DecodeFixed32(sum));
    EncodedBack(sum);
    assert data == RawBlock(crc, raw, compression);
    assert StoredAs(crc, codec, file, h, contents, raw, compression);
  }

  lemma TakeApart(crc: Crc, raw: Bytes, compression: Byte)
    ensures var data, n := RawBlock(crc, raw, compression), |raw|;
            && |data| == n + TRAILER && data[..n] == raw && data[n] == compression
               && data[..n + 1] == raw + [compression]
            && LogFormat.Unmask(DecodeFixed32(data[n + 1..])) == crc(raw + [compression])
  {
    var data, n := RawBlock(crc, raw, compression), |raw|;
    var sum := crc(raw + [compression]);
    assert data[..n + 1] == raw + [compression];
    assert data[n + 1..] == Fixed32(LogFormat.Mask(sum));
    Fixed32RoundTrip(LogFormat.Mask(sum));
    LogFormat.UnmaskMask(sum);
  }

  // ---- footer ----

  const MAGIC := 0xdb4775248b80fb57
  const HANDLES := 40  // twice kMaxEncodedLength
  const FOOTER := 48   // Footer::kEncodedLength

  /** Both handles, padding, the magic number in two words. */
  ghost predicate IsFooter(bs: Bytes, metaindex: Handle, index: Handle) {
    && |bs| == FOOTER && HandleBytes(metaindex) + HandleBytes(index) <= bs[..HANDLES]
    && bs[HANDLES..] == Fixed32(MAGIC % 0x1_0000_0000) + Fixed32(MAGIC / 0x1_0000_0000)
  }

  method EncodeFooter(metaindex: Handle, index: Handle) returns (bs: Bytes)
    ensures IsFooter(bs, metaindex, index)
  {
    var x := EncodeHandle(metaindex);
    var y := EncodeHandle(index);
    var padding: Bytes := seq(HANDLES - |x| - |y|, _ => 0);
    bs := x + y + padding + Fixed32(MAGIC % 0x1_0000_0000) + Fixed32(MAGIC / 0x1_0000_0000);
    assert bs[..HANDLES] == x + y + padding;
  }

  /** The handles of a footer with the right magic number. */
  function ParseFooter(bs: Bytes): Option<(Handle, Handle)>
    requires |bs| == FOOTER
  {
    if DecodeFixed32(bs[HANDLES + 4..]) as int * 0x1_0000_0000 + DecodeFixed32(bs[HANDLES..]) != MAGIC then None
    else match ParseHandle(bs, 0)
      case None => None
      case Some(a) => match ParseHandle(bs, a.1) case None => None case Some(b) => Some((a.0, b.0))
  }

  method DecodeFooter(bs: Bytes) returns (r: Option<(Handle, Handle)>)
    requires |bs| == FOOTER
    ensures r == ParseFooter(bs)
    ensures forall metaindex, index :: IsFooter(bs, metaindex, index) ==> r == Some((metaindex, index))
  {
    hide ParseHandle;
    hide HandleBytes;
    hide Fixed32;
    r := None;
    var lo: nat, hi: nat := DecodeFixed32(bs[HANDLES..]), DecodeFixed32(bs[HANDLES + 4..]);
    if hi * 0x1_0000_0000 + lo == MAGIC {
      var metaindex := DecodeHandle(bs, 0);
      if metaindex.Some? {
        var index := DecodeHandle(bs, metaindex.value.1);
        if index.Some? { r := Some((metaindex.value.0, index.value.0)); }
      }
    }
    forall metaindex, index | IsFooter(bs, metaindex, index) ensures r == Some((metaindex, index)) {
      MagicDecodes(bs, metaindex, index);
      FooterParses(bs, metaindex, index);
    }
  }

  lemma FooterParses(bs: Bytes, metaindex: Handle, index: Handle)
    requires IsFooter(bs, metaindex, index)
    ensures ParseHandle(bs, 0) == Some((metaindex, |HandleBytes(metaindex)|))
    ensures |HandleBytes(metaindex)| <= |bs|
            && ParseHandle(bs, |HandleBytes(metaindex)|)
            == Some((index, |HandleBytes(metaindex)| + |HandleBytes(index)|))
  {
    hide ParseHandle;
    hide HandleBytes;
    hide Fixed32;
    var a, b := HandleBytes(metaindex), HandleBytes(index);
    assert bs[..|a| + |b|] == bs[..HANDLES][..|a| + |b|] == a + b;
    assert bs[0..] == a + (b + bs[|a| + |b|..]);
    assert bs[|a|..] == b + bs[|a| + |b|..];
    HandleParses(bs, 0, metaindex, b + bs[|a| + |b|..]);
    HandleParses(bs, |a|, index, bs[|a| + |b|..]);
  }

  lemma MagicDecodes(bs: Bytes, metaindex: Handle, index: Handle)
    requires IsFooter(bs, metaindex, index)
    ensures DecodeFixed32(bs[HANDLES + 4..]) as nat * 0x1_0000_0000 + DecodeFixed32(bs[HANDLES..]) == MAGIC
  {
    Fixed32RoundTrip(MAGIC % 0x1_0000_0000);
    Fixed32RoundTrip(MAGIC / 0x1_0000_0000);
    var m := bs[HANDLES..];
    assert m[..4] == Fixed32(MAGIC % 0x1_0000_0000) && m[4..] == Fixed32(MAGIC / 0x1_0000_0000);
    assert bs[HANDLES + 4..] == m[4..];
  }
}
