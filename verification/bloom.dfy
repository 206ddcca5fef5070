/** Bloom filters (util/bloom.cc), for any hash function. */
module Bloom {
  import opened Bits
  import opened Coding
  import opened Filters

  type Hash = Bytes -> Word

  /** rotate right 17 bits */
  function Delta(h: Word): Word { h / 0x2_0000 + h % 0x2_0000 * 0x8000 }

  /** Probe j in 32-bit arithmetic. */
  function Probe(h: Word, j: nat): Word
    decreases j
  {
    if j == 0 then h else (Probe(h, j - 1) + Delta(h)) % 0x1_0000_0000
  }

  /** Where probe j of a key lands. */
  function Position(h: Word, j: nat, bits: nat): (q: nat)
    requires bits > 0
    ensures q < bits
  {
    Probe(h, j) % bits
  }

  // ---- bits ----

  /** b | (1 << i) */
  function SetBit(b: nat, i: nat): nat {
    if i == 0 then b - b % 2 + 1 else 2 * SetBit(b / 2, i - 1) + b % 2
  }

  function Pow2(k: nat): nat { if k == 0 then 1 else 2 * Pow2(k - 1) }

  lemma Halves(b: nat, m: nat)
    requires b < 2 * m
    ensures b / 2 < m && b % 2 <= 1 && b - b % 2 + 1 == 2 * (b / 2) + 1
  {
  }

  lemma Doubles(x: nat, bit: nat, m: nat)
    requires x < m && bit <= 1
    ensures 2 * x + bit < 2 * m
  {
  }

  lemma {:induction false} StaysSmall(b: nat, i: nat, k: nat)
    requires i < k && b < Pow2(k)
    ensures SetBit(b, i) < Pow2(k)
  {
    Halves(b, Pow2(k - 1));
    if i > 0 {
      StaysSmall(b / 2, i - 1, k - 1);
      Doubles(SetBit(b / 2, i - 1), b % 2, Pow2(k - 1));
    } else {
      Doubles(b / 2, 1, Pow2(k - 1));
    }
  }

  lemma {:induction false} OneBitSet(b: nat, i: nat, j: nat)
    ensures BitOf(SetBit(b, i), j) <==> i == j || BitOf(b, j)
  {
    if i > 0 && j > 0 { OneBitSet(b / 2, i - 1, j - 1); }
  }

  // ---- where a probe lands ----

  lemma DeltaRotates(h: Word, i: nat)
    requires i < 32
    ensures BitOf(Delta(h), i) <==> BitOf(h, (i + 17) % 32)
  {
    RotatedBy17(h, i);
  }

  lemma AddedBefore(a: nat, d: nat)
    ensures (a % 0x1_0000_0000 + d) % 0x1_0000_0000 == (a + d) % 0x1_0000_0000
  {
  }

  lemma {:induction false} ProbeIs(h: Word, j: nat, times: nat)
    requires times == j * Delta(h)
    ensures Probe(h, j) == (h + times) % 0x1_0000_0000
  {
    hide Delta;
    if j > 0 {
      assert times - Delta(h) == (j - 1) * Delta(h);
      ProbeIs(h, j - 1, times - Delta(h));
      AddedBefore(h + (times - Delta(h)), Delta(h));
    }
  }

  /** Probe j lands j times the hash rotated by 17 bits behind the hash, in 32-bit
      arithmetic, counted round the bits of the filter. */
  lemma ProbeLands(h: Word, j: nat, bits: nat, rotated: Word)
    requires bits > 0 && forall i: nat :: i < 32 ==> (BitOf(rotated, i) <==> BitOf(h, (i + 17) % 32))
    ensures Position(h, j, bits) == (h + j * rotated) % 0x1_0000_0000 % bits
  {
    hide BitOf;
    hide Delta;
    hide Probe;
    forall i: nat | i < 32 ensures BitOf(rotated, i) <==> BitOf(Delta(h), i) { DeltaRotates(h, i); }
    SameWord(rotated, Delta(h));
    ProbeIs(h, j, j * rotated);
  }

  function SetInByte(b: Byte, i: nat): Byte
    requires i < 8
  {
    assert Pow2(3) == 8 && Pow2(6) == 64 && Pow2(8) == 256;
    StaysSmall(b, i, 8);
    SetBit(b, i)
  }

  predicate Bit(bs: Bytes, pos: nat)
    requires pos < 8 * |bs|
  {
    BitOf(bs[pos / 8], pos % 8)
  }

  function WithBit(bs: Bytes, pos: nat): Bytes
    requires pos < 8 * |bs|
  {
    bs[pos / 8 := SetInByte(bs[pos / 8], pos % 8)]
  }

  lemma SetsOneBit(bs: Bytes, pos: nat, q: nat)
    requires pos < 8 * |bs| && q < 8 * |bs|
    ensures Bit(WithBit(bs, pos), q) <==> q == pos || Bit(bs, q)
  {
    if q / 8 == pos / 8 { OneBitSet(bs[pos / 8], pos % 8, q % 8); }
  }

  // ---- filters ----

  datatype BloomFilterPolicy = BloomFilterPolicy(hash: Hash, bitsPerKey: nat, probes: Byte)

  /** The constructor's rounding keeps k_ between 1 and 30. */
  ghost predicate Valid(p: BloomFilterPolicy) { 1 <= p.probes <= 30 }

  function FilterBytes(p: BloomFilterPolicy, n: nat): (bytes: nat)
    ensures bytes >= 8
  {
    var bits := n * p.bitsPerKey;
    var atLeast := if bits < 64 then 64 else bits;
    (atLeast + 7) / 8
  }

  function AddProbes(bs: Bytes, h: Word, k: nat): (r: Bytes)
    requires bs != []
    ensures |r| == |bs|
  {
    if k == 0 then bs else WithBit(AddProbes(bs, h, k - 1), Position(h, k - 1, 8 * |bs|))
  }

  function AddKeys(p: BloomFilterPolicy, bs: Bytes, keys: seq<Bytes>): (r: Bytes)
    requires bs != []
    ensures |r| == |bs|
  {
    if keys == [] then bs
    else AddProbes(AddKeys(p, bs, keys[..|keys| - 1]), p.hash(keys[|keys| - 1]), p.probes)
  }

  function BloomFilter(p: BloomFilterPolicy, keys: seq<Bytes>): Bytes {
    AddKeys(p, Zeros(FilterBytes(p, |keys|)), keys) + [p.probes]
  }

  lemma FilterSize(p: BloomFilterPolicy, keys: seq<Bytes>)
    requires keys != []
    ensures |BloomFilter(p, keys)| <= (p.bitsPerKey + 18) * |keys|
  {
    assert |keys| * p.bitsPerKey + 18 * |keys| == (p.bitsPerKey + 18) * |keys|;
  }

  method CreateFilter(p: BloomFilterPolicy, keys: seq<Bytes>, dst: Bytes) returns (r: Bytes)
    ensures r == dst + BloomFilter(p, keys)
  {
    var bits := |keys| * p.bitsPerKey;
    if bits < 64 { bits := 64; }
    var bytes := (bits + 7) / 8;
    bits := bytes * 8;
    var bs := new Byte[bytes](_ => 0);
    assert bs[..] == Zeros(bytes);
    for i := 0 to |keys|
      invariant bs[..] == AddKeys(p, Zeros(bytes), keys[..i])
    {
      assert keys[..i + 1][..i] == keys[..i];
      SetProbes(bs, bits, p.hash(keys[i]), p.probes);
    }
    assert keys[..|keys|] == keys;
    r := dst + bs[..] + [p.probes];
  }

  method SetProbes(bs: array<Byte>, bits: nat, hash: Word, k: nat)
    requires bits == 8 * bs.Length > 0
    modifies bs
    ensures bs[..] == AddProbes(old(bs[..]), hash, k)
  {
    var h, delta := hash, Delta(hash);
    for j := 0 to k
      invariant h == Probe(hash, j) && bs[..] == AddProbes(old(bs[..]), hash, j)
    {
      var bitpos := h % bits;
      bs[bitpos / 8] := SetInByte(bs[bitpos / 8], bitpos % 8);
      h := (h + delta) % 0x1_0000_0000;
    }
  }

  /** Whether every probe of the key finds its bit set. */
  predicate AllProbesSet(bs: Bytes, h: Word, k: nat)
    requires bs != []
  {
    forall j :: 0 <= j < k ==> Bit(bs, Position(h, j, 8 * |bs|))
  }

  ghost predicate Probed(h: Word, k: nat, bits: nat, q: nat)
    requires bits > 0
  {
    exists j :: 0 <= j < k && Position(h, j, bits) == q
  }

  lemma NextProbe(h: Word, k: nat, bits: nat, q: nat)
    requires bits > 0 && k > 0
    ensures Probed(h, k, bits, q) <==> Probed(h, k - 1, bits, q) || Position(h, k - 1, bits) == q
  {
  }

  lemma {:induction false} ProbesSet(bs: Bytes, h: Word, k: nat, q: nat)
    requires bs != [] && q < 8 * |bs|
    ensures Bit(AddProbes(bs, h, k), q) <==> Bit(bs, q) || Probed(h, k, 8 * |bs|, q)
  {
    if k > 0 {
      ProbesSet(bs, h, k - 1, q);
      NextProbe(h, k, 8 * |bs|, q);
      SetsOneBit(AddProbes(bs, h, k - 1), Position(h, k - 1, 8 * |bs|), q);
      hide Bit;
      hide WithBit;
      hide Position;
      hide Probed;
    }
  }

  ghost predicate ProbedBy(p: BloomFilterPolicy, keys: seq<Bytes>, bits: nat, q: nat)
    requires bits > 0
  {
    exists key :: key in keys && Probed(p.hash(key), p.probes, bits, q)
  }

  lemma NextKey(p: BloomFilterPolicy, keys: seq<Bytes>, key: Bytes, bits: nat, q: nat)
    requires bits > 0
    ensures ProbedBy(p, keys + [key], bits, q) <==> ProbedBy(p, keys, bits, q) || Probed(p.hash(key), p.probes, bits, q)
  {
    hide Probed;
    if Probed(p.hash(key), p.probes, bits, q) { assert key in keys + [key]; }
    if ProbedBy(p, keys, bits, q) {
      var k :| k in keys && Probed(p.hash(k), p.probes, bits, q);
      assert k in keys + [key];
    }
  }

  lemma {:induction false} KeysSet(p: BloomFilterPolicy, bs: Bytes, keys: seq<Bytes>, q: nat)
    requires bs != [] && q < 8 * |bs|
    ensures Bit(AddKeys(p, bs, keys), q) <==> Bit(bs, q) || ProbedBy(p, keys, 8 * |bs|, q)
    decreases |keys|
  {
    if keys != [] {
      var n := |keys| - 1;
      KeysSet(p, bs, keys[..n], q);
      NextKey(p, keys[..n], keys[n], 8 * |bs|, q);
      assert keys == keys[..n] + [keys[n]];
      ProbesSet(AddKeys(p, bs, keys[..n]), p.hash(keys[n]), p.probes, q);
      hide Bit;
      hide ProbedBy;
      hide Probed;
      hide AddProbes;
    }
  }

  lemma ZeroBit(n: nat, q: nat)
    requires q < 8 * n
    ensures !Bit(Zeros(n), q)
  {
    ZeroBits(q % 8);
  }

  lemma {:induction false} ZeroBits(i: nat)
    ensures !BitOf(0, i)
  {
    if i > 0 { ZeroBits(i - 1); }
  }

  /** Exactly the probed bits are set. */
  lemma FilterBits(p: BloomFilterPolicy, keys: seq<Bytes>, q: nat)
    requires q < 8 * FilterBytes(p, |keys|)
    ensures Bit(BloomFilter(p, keys)[..|BloomFilter(p, keys)| - 1], q)
            <==> ProbedBy(p, keys, 8 * FilterBytes(p, |keys|), q)
  {
    var n := FilterBytes(p, |keys|);
    KeysSet(p, Zeros(n), keys, q);
    ZeroBit(n, q);
    assert BloomFilter(p, keys)[..|BloomFilter(p, keys)| - 1] == AddKeys(p, Zeros(n), keys);
  }

  /** KeyMayMatch, by its meaning. */
  predicate Matches(p: BloomFilterPolicy, key: Bytes, filter: Bytes) {
    |filter| >= 2 && var n := |filter| - 1; filter[n] > 30 || AllProbesSet(filter[..n], p.hash(key), filter[n])
  }

  method KeyMayMatch(p: BloomFilterPolicy, key: Bytes, filter: Bytes) returns (may: bool)
    ensures may == Matches(p, key, filter)
  {
    if |filter| < 2 { return false; }
    var n := |filter| - 1;
    var k := filter[n];
    if k > 30 { return true; }  // reserved for new encodings
    may := TestProbes(filter[..n], p.hash(key), k);
  }

  method TestProbes(bs: Bytes, hash: Word, k: nat) returns (all: bool)
    requires bs != []
    ensures all == AllProbesSet(bs, hash, k)
  {
    hide BitOf;
    var bits, h, delta := 8 * |bs|, hash, Delta(hash);
    for j := 0 to k
      invariant h == Probe(hash, j) && AllProbesSet(bs, hash, j)
    {
      var bitpos := h % bits;
      assert bitpos == Position(hash, j, bits);
      if !BitOf(bs[bitpos / 8], bitpos % 8) {
        assert !Bit(bs, Position(hash, j, bits));
        return false;
      }
      h := (h + delta) % 0x1_0000_0000;
    }
    return true;
  }

  /** A key in the list always matches the list's filter. */
  lemma NeverMisses(p: BloomFilterPolicy, keys: seq<Bytes>, key: Bytes)
    requires Valid(p) && key in keys
    ensures Matches(p, key, BloomFilter(p, keys))
  {
    var f, n := BloomFilter(p, keys), FilterBytes(p, |keys|);
    assert |f[..|f| - 1]| == n;
    forall j | 0 <= j < p.probes ensures Bit(f[..|f| - 1], Position(p.hash(key), j, 8 * n)) {
      var q := Position(p.hash(key), j, 8 * n);
      assert Probed(p.hash(key), p.probes, 8 * n, q);
      FilterBits(p, keys, q);
    }
  }

  function Policy(p: BloomFilterPolicy): FilterPolicy {
    FilterPolicy((keys: seq<Bytes>) => BloomFilter(p, keys), (key: Bytes, filter: Bytes) => Matches(p, key, filter))
  }

  lemma BloomHasNoFalseNegatives(p: BloomFilterPolicy)
    requires Valid(p)
    ensures NoFalseNegatives(Policy(p))
  {
    forall keys: seq<Bytes>, k: Bytes | k in keys
      ensures Policy(p).mayMatch(k, Policy(p).create(keys))
    { NeverMisses(p, keys, k); }
  }
}
