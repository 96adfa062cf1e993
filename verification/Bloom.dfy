/** The per-file bloom filter (`parquet/bloom.rs`).

    A filter is a set of bits, 512 to a bucket. Adding a key sets the bits of
    its probe sequence and no others; a query answers whether all of them are
    set. Hence no added key is ever denied, before or after serialization,
    whatever the hash function.
 */
module Bloom {
  import opened Wrappers
  import opened ByteStrings
  import opened Arithmetic

  const GOLDEN: nat := 0x9e37_79b9

  /** A filter as bytes. */
  datatype Filter = Filter(data: bytes, probes: nat)

  // ── Bits ──────────────────────────────────────────────────────────────────

  /** Bit `b` of a byte: `x & (1 << b) != 0`. */
  predicate TestBit(x: nat, b: nat) {
    if b == 0 then x % 2 == 1 else TestBit(x / 2, b - 1)
  }

  /** `x | (1 << b)`. */
  function OrBit(x: nat, b: nat): nat {
    if b == 0 then (if x % 2 == 1 then x else x + 1) else 2 * OrBit(x / 2, b - 1) + x % 2
  }

  lemma {:induction false} OrBitSetsOne(x: nat, i: nat, j: nat)
    ensures TestBit(OrBit(x, i), j) <==> TestBit(x, j) || i == j
  {
    if i > 0 && j > 0 { OrBitSetsOne(x / 2, i - 1, j - 1); }
  }

  lemma {:induction false} OrBitFits(x: nat, b: nat, n: nat)
    requires x < Pow2(n) && b < n
    ensures OrBit(x, b) < Pow2(n)
  {
    var half := Pow2(n - 1);
    assert Pow2(n) == 2 * half;
    if b > 0 { OrBitFits(x / 2, b - 1, n - 1); }
  }

  function OrByte(x: byte, b: nat): byte
    requires b < 8
  {
    OrBitFits(x, b, 8);
    OrBit(x, b)
  }

  predicate BitSet(data: bytes, p: nat)
    requires p < 8 * |data|
  {
    TestBit(data[p / 8], p % 8)
  }

  // ── Probes ────────────────────────────────────────────────────────────────

  /** `(hash * n) >> 32`. */
  function FastRange(h: u32, n: nat): nat {
    h * n / U32
  }

  lemma FastRangeBelow(h: u32, n: nat)
    ensures n > 0 ==> FastRange(h, n) < n
    ensures n == 0 ==> FastRange(h, n) == 0
  {
    if n > 0 {
      assert h * n <= (U32 - 1) * n;
    }
  }

  /** The probe driver after `k` multiplications, modulo 2^32. */
  function Rolled(h: u32, k: nat): u32 {
    if k == 0 then h else Roll(Rolled(h, k - 1))
  }

  function Roll(h: u32): u32 {
    (h as int * GOLDEN) % 0x1_0000_0000
  }

  /** `(h >> 23) & 511`. */
  function BitPos(h: u32): (p: nat)
    ensures p < 512
  {
    h / 0x80_0000 % 512
  }

  function BucketOf(hash: u64, len: nat): nat {
    FastRange(hash / 0x1_0000_0000, len / 64 % U32)
  }

  function Power(base: nat, k: nat): nat {
    if k == 0 then 1 else base * Power(base, k - 1)
  }

  /** `r` is `n` modulo 2^32. */
  ghost predicate Low32(n: nat, r: nat) {
    r < 0x1_0000_0000 && exists q: nat :: n == q * 0x1_0000_0000 + r
  }

  /** The driver is multiplied by the golden ratio's 32 bits again and again. */
  lemma {:induction false} RolledIs(h: u32, k: nat)
    ensures Low32(h * Power(0x9e37_79b9, k), Rolled(h, k))
  {
    var g := 0x9e37_79b9;
    if k == 0 {
      assert h * 1 == 0 * 0x1_0000_0000 + h;
    } else {
      RolledIs(h, k - 1);
      var n, r := h * Power(g, k - 1), Rolled(h, k - 1);
      var q: nat :| n == q * 0x1_0000_0000 + r;
      var t := r * g / 0x1_0000_0000;
      assert h * Power(g, k) == n * g by { ProductSwap(h, g, Power(g, k - 1)); }
      assert n * g == (q * g + t) * 0x1_0000_0000 + Rolled(h, k);
    }
  }

  lemma ProductSwap(a: nat, b: nat, c: nat)
    ensures a * (b * c) == a * c * b
  {
  }

  /** A probe is the driver's highest nine bits, and a bucket the part of the table
      its half of the hash points at. */
  lemma ProbeIs(h: u32)
    ensures BitPos(h) * 0x80_0000 <= h < (BitPos(h) + 1) * 0x80_0000
  {
  }

  lemma BucketIs(hash: u64, len: nat)
    requires len / 64 < U32
    ensures
      var high, n, b := hash / 0x1_0000_0000, len / 64, BucketOf(hash, len);
      b * 0x1_0000_0000 <= high * n < (b + 1) * 0x1_0000_0000
  {
  }

  lemma {:induction false} TestBitIs(x: nat, b: nat)
    ensures TestBit(x, b) <==> x / Pow2(b) % 2 == 1
  {
    if b > 0 {
      TestBitIs(x / 2, b - 1);
      assert x / 2 / Pow2(b - 1) == x / Pow2(b) by { HalveThenDivide(x, Pow2(b - 1)); }
    }
  }

  lemma HalveThenDivide(x: nat, d: nat)
    requires d > 0
    ensures x / 2 / d == x / (2 * d)
  {
    var q := x / 2;
    var s, t := q / d, q % d;
    assert q == s * d + t;
    assert s * (2 * d) == 2 * (s * d);
    QuotientUnique(x, 2 * d, s, 2 * t + x % 2);
  }

  /** The bits a key stands for. */
  ghost function ProbeBits(hash: u64, len: nat, probes: nat): set<nat> {
    set k | 0 <= k < probes :: BucketOf(hash, len) * 512 + BitPos(Rolled(hash % 0x1_0000_0000, k))
  }

  /** Every probe stays inside one 64-byte bucket of the data. */
  lemma ProbesInBucket(hash: u64, len: nat, probes: nat)
    requires len >= 64
    ensures BucketOf(hash, len) * 64 + 64 <= len
    ensures forall p :: p in ProbeBits(hash, len, probes) ==>
              BucketOf(hash, len) * 64 <= p / 8 < BucketOf(hash, len) * 64 + 64
  {
    FastRangeBelow(hash / 0x1_0000_0000, len / 64 % U32);
  }

  /** The set of bits that are set. */
  ghost function Bits(data: bytes): set<nat> {
    set p | 0 <= p < 8 * |data| && BitSet(data, p)
  }

  ghost predicate MayContainKey(f: Filter, hash: u64) {
    ProbeBits(hash, |f.data|, f.probes) <= Bits(f.data)
  }

  predicate WellFormed(f: Filter) {
    |f.data| >= 64 && |f.data| % 64 == 0 && 1 <= f.probes < 256
  }

  // ── Query ─────────────────────────────────────────────────────────────────

  /** `probe_scalar`. */
  method MayContain(f: Filter, hash: u64) returns (r: bool)
    requires WellFormed(f)
    ensures r <==> MayContainKey(f, hash)
  {
    hide TestBit, Roll, BitPos, BucketOf;
    var len := |f.data|;
    var bucket := BucketOf(hash, len);
    ProbesInBucket(hash, len, f.probes);
    var h: u32 := hash % 0x1_0000_0000;
    for k := 0 to f.probes
      invariant h == Rolled(hash % 0x1_0000_0000, k)
      invariant forall j :: 0 <= j < k ==>
                  bucket * 512 + BitPos(Rolled(hash % 0x1_0000_0000, j)) in Bits(f.data)
    {
      var bit := BitPos(h);
      ghost var p := bucket * 512 + bit;
      assert p in ProbeBits(hash, len, f.probes);
      assert p / 8 == bucket * 64 + bit / 8 && p % 8 == bit % 8;
      if !TestBit(f.data[bucket * 64 + bit / 8], bit % 8) {
        assert p !in Bits(f.data);
        return false;
      }
      h := Roll(h);
    }
    return true;
  }

  // ── Building ──────────────────────────────────────────────────────────────

  class FastLocalBloom {
    const data: array<byte>
    const probes: nat

    ghost function Contents(): Filter
      reads data
    {
      Filter(data[..], probes)
    }

    /** An all-zero filter of whole buckets, at least one. */
    constructor (keys: nat, bitsPerKey: nat, probes: nat)
      requires 1 <= probes < 256
      ensures WellFormed(Contents()) && fresh(data) && this.probes == probes
      ensures Bits(Contents().data) == {}
      ensures 8 * data.Length >= keys * bitsPerKey && (data.Length > 64 ==> 8 * (data.Length - 64) < keys * bitsPerKey)
    {
      var bits := if keys * bitsPerKey > 512 then keys * bitsPerKey else 512;
      var buckets := CeilDiv(bits, 512);
      CeilDivStep(bits, 512);
      data := new byte[buckets * 64](_ => 0);
      this.probes := probes;
      new;
      forall p | 0 <= p < 8 * data.Length
        ensures !BitSet(data[..], p)
      {
        assert data[..][p / 8] == 0;
        ZeroBits(p % 8);
      }
    }

    /** Sets exactly the key's probe bits. */
    method Add(hash: u64)
      requires WellFormed(Contents())
      modifies data
      ensures WellFormed(Contents())
      ensures Bits(Contents().data) == old(Bits(Contents().data)) + ProbeBits(hash, data.Length, probes)
    {
      var len := data.Length;
      var bucket := BucketOf(hash, len);
      ProbesInBucket(hash, len, probes);
      var h: u32 := hash % 0x1_0000_0000;
      ghost var done: set<nat> := {};
      assert Bits(data[..]) == old(Bits(data[..])) + done;
      for k := 0 to probes
        invariant h == Rolled(hash % 0x1_0000_0000, k)
        invariant done == ProbeBits(hash, len, k)
        invariant Bits(data[..]) == old(Bits(data[..])) + done
      {
        var bit := BitPos(h);
        ghost var p := bucket * 512 + bit;
        assert p in ProbeBits(hash, len, probes);
        assert p / 8 == bucket * 64 + bit / 8 && p % 8 == bit % 8;
        var at := bucket * 64 + bit / 8;
        ghost var before := data[..];
        data[at] := OrByte(data[at], bit % 8);
        SetBit(before, data[..], p);
        done := done + {p};
        ProbeStep(hash, len, k);
        h := Roll(h);
      }
    }
  }

  lemma ProbeStep(hash: u64, len: nat, k: nat)
    ensures ProbeBits(hash, len, k + 1) ==
            ProbeBits(hash, len, k) + {BucketOf(hash, len) * 512 + BitPos(Rolled(hash % 0x1_0000_0000, k))}
  {
  }

  lemma SetBit(before: bytes, after: bytes, p: nat)
    requires p < 8 * |before|
    requires after == before[p / 8 := OrByte(before[p / 8], p % 8)]
    ensures Bits(after) == Bits(before) + {p}
  {
    hide TestBit, OrBit;
    forall q | 0 <= q < 8 * |before|
      ensures q in Bits(after) <==> q in Bits(before) || q == p
    {
      if q / 8 == p / 8 {
        OrBitSetsOne(before[p / 8], p % 8, q % 8);
      }
    }
  }

  lemma {:induction false} ZeroBits(b: nat)
    ensures !TestBit(0, b)
  {
    if b > 0 { ZeroBits(b - 1); }
  }

  /** Adding keys in any order and number leaves every one of them findable. */
  method AddAll(bloom: FastLocalBloom, hashes: seq<u64>)
    requires WellFormed(bloom.Contents())
    modifies bloom.data
    ensures WellFormed(bloom.Contents())
    ensures forall i :: 0 <= i < |hashes| ==> MayContainKey(bloom.Contents(), hashes[i])
    ensures forall h: u64 :: old(MayContainKey(bloom.Contents(), h)) ==> MayContainKey(bloom.Contents(), h)
  {
    for k := 0 to |hashes|
      invariant WellFormed(bloom.Contents())
      invariant old(Bits(bloom.Contents().data)) <= Bits(bloom.Contents().data)
      invariant forall i :: 0 <= i < k ==> MayContainKey(bloom.Contents(), hashes[i])
    {
      bloom.Add(hashes[k]);
    }
  }

  // ── Serialization ─────────────────────────────────────────────────────────

  /** One probe-count byte, the low 32 bits of the bucket count in
      little-endian, then the data. */
  function ToBytes(f: Filter): bytes
    requires WellFormed(f)
  {
    [f.probes] + ToLe(|f.data| / 64, 4) + f.data
  }

  /** Rejects zero probes, zero buckets and any length mismatch. */
  function FromBytes(raw: bytes): (r: Result<Filter>)
    ensures r.Ok? ==> WellFormed(r.value)
  {
    if |raw| < 5 || raw[0] == 0 || FromLe(raw[1..5]) == 0 || |raw| - 5 != FromLe(raw[1..5]) * 64 then Err(Corruption)
    else Ok(Filter(raw[5..], raw[0]))
  }

  /** Parsing accepts exactly what serializing filters with fewer than 2^32 buckets
      gives, and returns that filter. */
  lemma AcceptedIff(raw: bytes, f: Filter)
    ensures FromBytes(raw) == Ok(f) <==> WellFormed(f) && |f.data| / 64 < U32 && raw == ToBytes(f)
    ensures FromBytes(raw).Err? ==> FromBytes(raw).error == Corruption
  {
    hide ToLe, FromLe;
    if WellFormed(f) && |f.data| / 64 < U32 && raw == ToBytes(f) { RoundTrip(f); }
    if FromBytes(raw) == Ok(f) {
      Pow256Values();
      FromLeBound(raw[1..5]);
      LeInverse(raw[1..5]);
      assert raw == [raw[0]] + raw[1..5] + raw[5..];
    }
  }

  /** A filter survives exactly if its bucket count fits 32 bits. */
  lemma RoundTrip(f: Filter)
    requires WellFormed(f)
    ensures FromBytes(ToBytes(f)) == Ok(f) <==> |f.data| / 64 < U32
  {
    hide ToLe, FromLe;
    var n, raw := |f.data| / 64, ToBytes(f);
    assert raw[1..5] == ToLe(n, 4) && raw[5..] == f.data;
    Pow256Values();
    if n < U32 {
      LeRoundTrip(n, 4);
    } else {
      FromLeBound(raw[1..5]);
    }
  }
}
