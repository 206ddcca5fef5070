/** Fixed and variable length integers (util/coding.h, util/coding.cc). */
module Coding {
  import opened InternalKeys

  type Byte = b: int | 0 <= b < 256
  type Bytes = seq<Byte>
  type Word = w: int | 0 <= w < 0x1_0000_0000

  function Zeros(n: nat): Bytes { seq(n, _ => 0) }

  function Fixed32(w: Word): (bs: Bytes)
    ensures |bs| == 4
  { [w % 256, w / 256 % 256, w / 65536 % 256, w / 16777216] }

  function DecodeFixed32(bs: Bytes): Word
    requires |bs| >= 4
  { bs[0] as int + bs[1] as int * 256 + bs[2] as int * 65536 + bs[3] as int * 16777216 }

  lemma Fixed32RoundTrip(w: Word)
    ensures DecodeFixed32(Fixed32(w)) == w
  {
    var n: int := w;
    assert n / 256 / 256 == n / 65536 && n / 65536 / 256 == n / 16777216;
    assert n == n % 256 + 256 * (n / 256);
    assert n / 256 == n / 256 % 256 + 256 * (n / 65536);
    assert n / 65536 == n / 65536 % 256 + 256 * (n / 16777216);
  }

  lemma EncodedBack(bs: Bytes)
    requires |bs| == 4
    ensures Fixed32(DecodeFixed32(bs)) == bs
  {
    Digits(bs[0], bs[1], bs[2], bs[3]);
  }

  lemma Digits(a: Byte, b: Byte, c: Byte, d: Byte)
    ensures var w: int := a as int + b as int * 256 + c as int * 65536 + d as int * 16777216;
            w % 256 == a && w / 256 % 256 == b && w / 65536 % 256 == c && w / 16777216 == d
  {
    var w: int := a as int + b as int * 256 + c as int * 65536 + d as int * 16777216;
    assert w / 256 == b as int + c as int * 256 + d as int * 65536;
    assert w / 65536 == c as int + d as int * 256;
  }

  /** Words one after the other. */
  function Fixed32s(ws: seq<Word>): (bs: Bytes)
    ensures |bs| == 4 * |ws|
  {
    if ws == [] then [] else Fixed32s(ws[..|ws| - 1]) + Fixed32(ws[|ws| - 1])
  }

  lemma {:induction false} Fixed32sAt(ws: seq<Word>, j: nat)
    requires j < |ws|
    ensures Fixed32s(ws)[4 * j..4 * j + 4] == Fixed32(ws[j])
    decreases |ws|
  {
    var n := |ws| - 1;
    if j < n {
      Fixed32sAt(ws[..n], j);
      assert Fixed32s(ws)[4 * j..4 * j + 4] == Fixed32s(ws[..n])[4 * j..4 * j + 4];
    }
  }

  /** Seven bits at a time, the lowest first; the high bit says that more follow. */
  function Varint(v: nat): (bs: Bytes)
    ensures |bs| >= 1
  { if v < 128 then [v] else [v % 128 + 128] + Varint(v / 128) }

  /** Read at most `budget` bytes from p, and none at or after limit. */
  function DecodeVarint(data: Bytes, p: nat, limit: nat, budget: nat): (r: Option<(nat, nat)>)
    requires limit <= |data|
    ensures r.Some? ==> p < r.value.1 <= limit
    decreases budget
  {
    if budget == 0 || p >= limit then None
    else if data[p] < 128 then Some((data[p], p + 1))
    else match DecodeVarint(data, p + 1, limit, budget - 1)
      case None => None
      case Some(rest) => Some((data[p] - 128 + 128 * rest.0, rest.1))
  }

  ghost predicate VarintAt(data: Bytes, p: nat, limit: nat, v: nat) {
    p + |Varint(v)| <= limit <= |data| && data[p..p + |Varint(v)|] == Varint(v)
  }

  lemma {:induction false} DecodeEncoded(data: Bytes, p: nat, limit: nat, v: nat, budget: nat)
    requires VarintAt(data, p, limit, v) && |Varint(v)| <= budget
    ensures DecodeVarint(data, p, limit, budget) == Some((v, p + |Varint(v)|))
    decreases budget
  {
    assert data[p] == Varint(v)[0] by { assert data[p] == data[p..p + |Varint(v)|][0]; }
    if v >= 128 {
      var n := |Varint(v)|;
      assert data[p + 1..p + n] == data[p..p + n][1..];
      assert data[p + 1..p + 1 + |Varint(v / 128)|] == Varint(v / 128);
      DecodeEncoded(data, p + 1, limit, v / 128, budget - 1);
    }
  }

  /** 128 to the k-th. */
  function Scale(k: nat): nat { if k == 0 then 1 else 128 * Scale(k - 1) }

  lemma {:induction false} VarintSize(v: nat, k: nat)
    requires k >= 1 && v < Scale(k)
    ensures |Varint(v)| <= k
  {
    if v >= 128 { VarintSize(v / 128, k - 1); }
  }

  /** A 32-bit number takes at most five bytes. */
  lemma VarintFits(v: Word)
    ensures |Varint(v)| <= 5
  {
    assert Scale(3) == 0x20_0000 && Scale(5) == 128 * (128 * Scale(3));
    VarintSize(v, 5);
  }

  lemma LastBytes(v: nat)
    ensures v < 128 ==> Varint(v) == [v]
    ensures 128 <= v < 0x4000 ==> Varint(v) == [v % 128 + 128, v / 0x80]
    ensures 0x4000 <= v < 0x20_0000 ==> Varint(v) == [v % 128 + 128, v / 0x80 % 128 + 128, v / 0x4000]
  {
    if v >= 128 { assert Varint(v) == [v % 128 + 128] + Varint(v / 128); }
    if v >= 0x4000 {
      assert v / 128 / 128 == v / 0x4000;
      assert Varint(v / 128) == [v / 128 % 128 + 128] + Varint(v / 128 / 128);
    }
  }

  method EncodeVarint32(v: Word) returns (bs: Bytes)
    ensures bs == Varint(v)
  {
    LastBytes(v);
    LastBytes(v / 0x80);
    LastBytes(v / 0x4000);
    assert v / 0x80 / 0x80 == v / 0x4000 && v / 0x80 / 0x4000 == v / 0x20_0000;
    assert v / 0x4000 / 0x80 == v / 0x20_0000 && v / 0x4000 / 0x4000 == v / 0x1000_0000;
    if v < 0x80 {
      bs := [v];
    } else if v < 0x4000 {
      bs := [v % 128 + 128, v / 0x80];
    } else if v < 0x20_0000 {
      bs := [v % 128 + 128, v / 0x80 % 128 + 128, v / 0x4000];
    } else if v < 0x1000_0000 {
      bs := [v % 128 + 128, v / 0x80 % 128 + 128, v / 0x4000 % 128 + 128, v / 0x20_0000];
    } else {
      bs := [v % 128 + 128, v / 0x80 % 128 + 128, v / 0x4000 % 128 + 128, v / 0x20_0000 % 128 + 128, v / 0x1000_0000];
    }
  }

  lemma MoreDigits(sum: nat, m: nat, digit: nat, rest: nat)
    ensures sum + m * (digit + 128 * rest) == (sum + m * digit) + 128 * m * rest
  {
  }

  /** 32-bit and 64-bit arithmetic. */
  function Low32(v: nat): Word { v % 0x1_0000_0000 }

  function Low64(v: nat): Word64 { v % 0x1_0000_0000_0000_0000 }

  lemma AddLow32(sum: nat, x: nat)
    ensures Low32(Low32(sum) + x) == Low32(sum + x)
  {
  }

  lemma AddLow64(sum: nat, x: nat)
    ensures Low64(Low64(sum) + x) == Low64(sum + x)
  {
  }

  /** byte << shift, with m == 1 << shift. */
  function Shifted(byte: nat, m: nat): nat { m * byte }

  /** What is left to decode, put behind the low part read so far. */
  ghost function Behind(sum: nat, m: nat, rest: Option<(nat, nat)>): Option<(nat, nat)> {
    match rest case None => None case Some(r) => Some((sum + m * r.0, r.1))
  }

  lemma OneByte(data: Bytes, p: nat, limit: nat, budget: nat, sum: nat, m: nat)
    requires p < limit <= |data| && budget > 0
    ensures data[p] < 128 ==>
              Behind(sum, m, DecodeVarint(data, p, limit, budget))
              == Some((sum + Shifted(data[p], m), p + 1))
    ensures data[p] >= 128 ==>
              Behind(sum, m, DecodeVarint(data, p, limit, budget))
              == Behind(sum + Shifted(data[p] - 128, m), 128 * m, DecodeVarint(data, p + 1, limit, budget - 1))
  {
    var rest := DecodeVarint(data, p + 1, limit, budget - 1);
    if data[p] >= 128 && rest.Some? { MoreDigits(sum, m, data[p] - 128, rest.value.0); }
  }

  lemma NoByte(data: Bytes, p: nat, limit: nat, budget: nat, sum: nat, m: nat)
    requires limit <= |data| && (budget == 0 || p >= limit)
    ensures Behind(sum, m, DecodeVarint(data, p, limit, budget)) == None
  {
  }

  lemma WholeVarint(data: Bytes, p: nat, limit: nat, budget: nat)
    requires limit <= |data|
    ensures Behind(0, 1, DecodeVarint(data, p, limit, budget)) == DecodeVarint(data, p, limit, budget)
    ensures Low32(0) == 0 && Low64(0) == 0
  {
  }

  /** GetVarint32Ptr with its fallback: five bytes at most, in 32-bit arithmetic. */
  method GetVarint32Ptr(data: Bytes, start: nat, limit: nat) returns (next: Option<nat>, value: Word)
    requires limit <= |data|
    ensures match DecodeVarint(data, start, limit, 5)
            case None => next == None
            case Some(r) => next == Some(r.1) && value == Low32(r.0)
  {
    hide Low32;
    hide DecodeVarint;
    hide Behind;
    hide Shifted;
    WholeVarint(data, start, limit, 5);
    value := 0;
    ghost var sum: nat := 0;
    var p, k := start, 0;
    var m: nat := 1;  // 1 << shift
    while k <= 4 && p < limit
      invariant 0 <= k <= 5 && p == start + k && value == Low32(sum)
      invariant DecodeVarint(data, start, limit, 5) == Behind(sum, m, DecodeVarint(data, p, limit, 5 - k))
    {
      OneByte(data, p, limit, 5 - k, sum, m);
      var byte: nat := data[p];
      var digit: nat := if byte < 128 then byte else byte - 128;
      var part := Shifted(digit, m);
      AddLow32(sum, part);
      value := Low32(value + part);
      if byte < 128 { return Some(p + 1), value; }
      sum := sum + part;
      p, k, m := p + 1, k + 1, 128 * m;
    }
    NoByte(data, p, limit, 5 - k, sum, m);
    return None, value;
  }

  // ---- 64 bits ----

  type Word64 = w: int | 0 <= w < 0x1_0000_0000_0000_0000

  function Fixed64(w: Word64): (bs: Bytes)
    ensures |bs| == 8
  { Fixed32(w % 0x1_0000_0000) + Fixed32(w / 0x1_0000_0000) }

  function DecodeFixed64(bs: Bytes): Word64
    requires |bs| >= 8
  { DecodeFixed32(bs[4..]) * 0x1_0000_0000 + DecodeFixed32(bs) }

  lemma Fixed64RoundTrip(w: Word64)
    ensures DecodeFixed64(Fixed64(w)) == w
  {
    Fixed32RoundTrip(w % 0x1_0000_0000);
    Fixed32RoundTrip(w / 0x1_0000_0000);
    assert Fixed64(w)[4..] == Fixed32(w / 0x1_0000_0000);
  }

  /** A 64-bit number takes at most ten bytes. */
  lemma Varint64Fits(v: Word64)
    ensures |Varint(v)| <= 10
  {
    assert Scale(3) == 0x20_0000 && Scale(6) == 128 * (128 * (128 * Scale(3)));
    assert Scale(10) == 128 * (128 * (128 * (128 * Scale(6))));
    VarintSize(v, 10);
  }

  method EncodeVarint64(v: Word64) returns (bs: Bytes)
    ensures bs == Varint(v)
  {
    bs := [];
    var left: nat := v;
    while left >= 128
      invariant bs + Varint(left) == Varint(v)
    {
      assert bs + Varint(left) == (bs + [left % 128 + 128]) + Varint(left / 128);
      bs := bs + [left % 128 + 128];
      left := left / 128;
    }
    bs := bs + [left];
  }

  /** GetVarint64Ptr: ten bytes at most, in 64-bit arithmetic. */
  method GetVarint64Ptr(data: Bytes, start: nat, limit: nat) returns (next: Option<nat>, value: Word64)
    requires limit <= |data|
    ensures match DecodeVarint(data, start, limit, 10)
            case None => next == None
            case Some(r) => next == Some(r.1) && value == Low64(r.0)
  {
    hide Low64;
    hide DecodeVarint;
    hide Behind;
    hide Shifted;
    WholeVarint(data, start, limit, 10);
    value := 0;
    ghost var sum: nat := 0;
    var p, k := start, 0;
    var m: nat := 1;  // 1 << shift
    while k <= 9 && p < limit
      invariant 0 <= k <= 10 && p == start + k && value == Low64(sum)
      invariant DecodeVarint(data, start, limit, 10) == Behind(sum, m, DecodeVarint(data, p, limit, 10 - k))
    {
      OneByte(data, p, limit, 10 - k, sum, m);
      var byte: nat := data[p];
      var digit: nat := if byte < 128 then byte else byte - 128;
      var part := Shifted(digit, m);
      AddLow64(sum, part);
      value := Low64(value + part);
      if byte < 128 { return Some(p + 1), value; }
      sum := sum + part;
      p, k, m := p + 1, k + 1, 128 * m;
    }
    NoByte(data, p, limit, 10 - k, sum, m);
    return None, value;
  }

  lemma SubSlice(data: Bytes, p: nat, n: nat, lo: nat, hi: nat)
    requires p + n <= |data| && lo <= hi <= n
    ensures data[p + lo..p + hi] == data[p..p + n][lo..hi]
  {
    var a, b := data[p + lo..p + hi], data[p..p + n][lo..hi];
    forall k | 0 <= k < hi - lo
      ensures a[k] == b[k]
    { assert a[k] == data[p + lo + k] && b[k] == data[p..p + n][lo + k]; }
  }
}
