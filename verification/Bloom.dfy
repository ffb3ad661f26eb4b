/** The Bloom filter of src/bloom.rs, bit by bit. */
module Bloom {
  import opened Bytes

  const MAX_K: nat := 30

  predicate GetBit8(b: bv8, offset: bv8)
    requires offset < 8
  {
    b & (1 << offset) != 0
  }

  /** `get_bit` */
  predicate GetBit(filter: seq<bv8>, idx: nat)
    requires idx < 8 * |filter|
  {
    GetBit8(filter[idx / 8], (idx % 8) as bv8)
  }

  /** Bit idx of a filter is in byte idx / 8, counted from the least significant bit. */
  lemma GetBitIs(filter: seq<bv8>, idx: nat)
    requires idx < 8 * |filter|
    ensures GetBit(filter, idx) <==> (filter[idx / 8] >> ((idx % 8) as bv8)) & 1 == 1
  {
    ShiftedBit(filter[idx / 8], (idx % 8) as bv8);
  }

  lemma ShiftedBit(b: bv8, offset: bv8)
    requires offset < 8
    ensures GetBit8(b, offset) <==> (b >> offset) & 1 == 1
  {}

  lemma OrSetsOneBit(b: bv8, offset: bv8, other: bv8)
    requires offset < 8 && other < 8
    ensures GetBit8(b | (1 << offset), other) <==> other == offset || GetBit8(b, other)
  {}

  lemma ZeroHasNoBits(offset: bv8)
    requires offset < 8
    ensures !GetBit8(0, offset)
  {}

  lemma ZeroFilter(filter: seq<bv8>)
    requires forall i :: 0 <= i < |filter| ==> filter[i] == 0
    ensures forall p: nat :: p < 8 * |filter| ==> !GetBit(filter, p)
  {
    forall p: nat | p < 8 * |filter| ensures !GetBit(filter, p) { ZeroHasNoBits((p % 8) as bv8); }
  }

  /** `set_bit(idx, true)` */
  method SetBit(filter: array<bv8>, idx: nat)
    requires idx < 8 * filter.Length
    modifies filter
    ensures forall p: nat :: p < 8 * filter.Length ==> (GetBit(filter[..], p) <==> p == idx || old(GetBit(filter[..], p)))
  {
    var pos, offset := idx / 8, (idx % 8) as bv8;
    ghost var was := filter[..];
    filter[pos] := filter[pos] | (1 << offset);
    forall p: nat | p < 8 * filter.Length ensures GetBit(filter[..], p) <==> p == idx || GetBit(was, p) {
      if p / 8 == pos { OrSetsOneBit(was[pos], offset, (p % 8) as bv8); }
    }
  }

  // ------------------------------------------------------------ probes

  /** `(h >> 17) | (h << 15)` on 32 bits */
  function Delta(h: nat): nat { h / 0x2_0000 + h % 0x2_0000 * 0x8000 }

  /** Bit i of a number. */
  predicate Bit(n: nat, i: nat) { if i == 0 then n % 2 == 1 else Bit(n / 2, i - 1) }

  function Pow2(m: nat): nat { if m == 0 then 1 else 2 * Pow2(m - 1) }

  /** A low part of m bits below a high part. */
  lemma {:induction false} BitOfParts(low: nat, high: nat, m: nat, i: nat)
    requires low < Pow2(m)
    ensures Bit(low + high * Pow2(m), i) <==> if i < m then Bit(low, i) else Bit(high, i - m)
  {
    if m > 0 {
      var n := low + high * Pow2(m);
      assert n == low + 2 * (high * Pow2(m - 1));
      assert n / 2 == low / 2 + high * Pow2(m - 1) && n % 2 == low % 2;
      if i > 0 { BitOfParts(low / 2, high, m - 1, i - 1); }
    }
  }

  /** The step between probes is the hash rotated right by 17 bits, on 32 bits. */
  lemma DeltaRotates(h: nat, i: nat)
    requires h < U32 && i < 32
    ensures Delta(h) < U32
    ensures Bit(Delta(h), i) <==> Bit(h, (i + 17) % 32)
  {
    hide Bit;
    var high, low := h / 0x2_0000, h % 0x2_0000;
    assert Pow2(15) == 0x8000 && Pow2(17) == 4 * Pow2(15);
    BitOfParts(high, low, 15, i);
    BitOfParts(low, high, 17, (i + 17) % 32);
  }

  /** The hash after i wrapping additions of its delta. */
  function Probe(h: nat, i: nat): nat { (h + i * Delta(h)) % U32 }

  lemma ProbeStart(h: nat)
    requires h < U32
    ensures Probe(h, 0) == h
  {}

  lemma ProbeStep(h: nat, i: nat)
    ensures (Probe(h, i) + Delta(h)) % U32 == Probe(h, i + 1)
  {
    var x, d := h + i * Delta(h), Delta(h);
    assert h + (i + 1) * d == x + d;
    assert (x % U32 + d) % U32 == (x + d) % U32 by { AddMod(x, d); }
  }

  lemma AddMod(x: nat, d: nat)
    ensures (x % U32 + d) % U32 == (x + d) % U32
  {
    var q := x / U32;
    assert x + d == x % U32 + d + q * U32;
    ModShift(x % U32 + d, q);
  }

  lemma {:induction false} ModShift(y: nat, q: nat)
    ensures (y + q * U32) % U32 == y % U32
  {
    if q > 0 {
      ModShift(y, q - 1);
      assert y + q * U32 == (y + (q - 1) * U32) + U32;
    }
  }

  /** Bit p was set for one of the first n hashes (and the first m probes of the next one). */
  ghost predicate Marked(keys: seq<nat>, n: nat, m: nat, k: nat, nbits: nat, p: nat)
    requires n <= |keys| && nbits > 0
  {
    || (exists a: nat, i: nat {:trigger Probe(keys[a], i)} :: a < n && i < k && p == Probe(keys[a], i) % nbits)
    || (n < |keys| && exists i: nat {:trigger Probe(keys[n], i)} :: i < m && p == Probe(keys[n], i) % nbits)
  }

  function Bits(n: nat, bitsPerKey: nat): nat {
    var nbits := if n * bitsPerKey < 64 then 64 else n * bitsPerKey;
    (nbits + 7) / 8 * 8
  }

  /** The filter's length: whole bytes, at least 64 bits, and no more bits than that takes. */
  lemma BitsAre(n: nat, bitsPerKey: nat)
    ensures var b := Bits(n, bitsPerKey);
            b % 8 == 0 && b >= 64 && b >= n * bitsPerKey && (b == 64 || b < n * bitsPerKey + 8)
  {}

  /** The filter of these hashes: its length, and which of its bits are set. */
  ghost predicate FilterBits(filter: seq<bv8>, hashes: seq<nat>, bitsPerKey: nat, k: nat) {
    && 8 * |filter| == Bits(|hashes|, bitsPerKey)
    && forall p: nat :: p < 8 * |filter| ==> (GetBit(filter, p) <==> Marked(hashes, |hashes|, 0, k, 8 * |filter|, p))
  }

  /** `build_from_key_hashes`; k stands for the clamped value of bits_per_key * 0.69. */
  method Build(keys: seq<nat>, bitsPerKey: nat, k: nat) returns (filter: seq<bv8>)
    requires 1 <= k <= MAX_K && forall h :: h in keys ==> h < U32
    ensures FilterBits(filter, keys, bitsPerKey, k)
  {
    hide Probe, Delta, GetBit;
    var nbits := Bits(|keys|, bitsPerKey);
    var bytes := new bv8[nbits / 8](_ => 0);
    ZeroFilter(bytes[..]);
    for a := 0 to |keys|
      invariant forall p: nat :: p < nbits ==> (GetBit(bytes[..], p) <==> Marked(keys, a, 0, k, nbits, p))
    {
      var h := keys[a];
      assert h in keys;
      var delta := Delta(h);
      ProbeStart(h);
      for i := 0 to k
        invariant h == Probe(keys[a], i) && delta == Delta(keys[a])
        invariant forall p: nat :: p < nbits ==> (GetBit(bytes[..], p) <==> Marked(keys, a, i, k, nbits, p))
      {
        SetBit(bytes, h % nbits);
        MarkNext(keys, a, i, k, nbits);
        ProbeStep(keys[a], i);
        h := (h + delta) % U32;
      }
      MarkKey(keys, a, k, nbits);
    }
    filter := bytes[..];
  }

  lemma MarkNext(keys: seq<nat>, a: nat, i: nat, k: nat, nbits: nat)
    requires a < |keys| && nbits > 0 && i < k
    ensures forall p: nat :: Marked(keys, a, i + 1, k, nbits, p) <==> Marked(keys, a, i, k, nbits, p) || p == Probe(keys[a], i) % nbits
  {}

  lemma MarkKey(keys: seq<nat>, a: nat, k: nat, nbits: nat)
    requires a < |keys| && nbits > 0
    ensures forall p: nat :: Marked(keys, a + 1, 0, k, nbits, p) <==> Marked(keys, a, k, k, nbits, p)
  {}

  /** The answer of a filter; the reader divides by the bit count cast to u32, which may be zero. */
  datatype Reply = Said(yes: bool) | Panicked

  /** Every probe, taken modulo the bit count cast to u32, hits a set bit. */
  ghost predicate AllSet(filter: seq<bv8>, k: nat, h: nat)
    requires 0 < 8 * |filter| % U32
  {
    forall i: nat {:trigger Probe(h, i)} :: i < k ==> GetBit(filter, Probe(h, i) % (8 * |filter| % U32))
  }

  ghost function Asked(filter: seq<bv8>, k: nat, h: nat): Reply {
    if k == 0 || k > 30 then Said(true)
    else if 8 * |filter| % U32 == 0 then Panicked
    else Said(AllSet(filter, k, h))
  }

  /** `may_contain` */
  method MayContain(filter: seq<bv8>, k: nat, hash: nat) returns (r: Reply)
    requires hash < U32
    ensures r == Asked(filter, k, hash)
  {
    hide Probe, Delta, GetBit;
    if k > MAX_K { return Said(true); }
    var h, nbits := hash, 8 * |filter| % U32;
    var delta := Delta(h);
    ProbeStart(h);
    for i := 0 to k
      invariant h == Probe(hash, i) && delta == Delta(hash)
      invariant i > 0 ==> nbits > 0
      invariant forall j: nat {:trigger Probe(hash, j)} :: j < i ==> GetBit(filter, Probe(hash, j) % nbits)
    {
      if nbits == 0 { return Panicked; }
      if !GetBit(filter, h % nbits) { return Said(false); }
      ProbeStep(hash, i);
      h := (h + delta) % U32;
    }
    return Said(true);
  }

  /** The reader's modulus is the builder's exactly when the bit count fits 32 bits. */
  lemma SameModulus(nbits: nat)
    requires 0 < nbits
    ensures 0 < nbits % U32 && (forall h: nat :: h < U32 ==> h % (nbits % U32) == h % nbits) <==> nbits < U32
  {
    var m := nbits % U32;
    if nbits >= U32 && m > 0 {
      assert m % m == 0 && m % nbits == m;
    }
  }

  // ------------------------------------------------------------ when nothing is lost

  /** No list of n hashes has a member that its own filter does not report. */
  ghost predicate AlwaysReports(n: nat, bitsPerKey: nat, k: nat) {
    forall keys: seq<nat>, filter, h |
      |keys| == n && (forall x :: x in keys ==> x < U32) && FilterBits(filter, keys, bitsPerKey, k) && h in keys ::
      Asked(filter, k, h) == Said(true)
  }

  /** A filter reports everything put into it exactly when its bit count is below 2^32,
    * for every number of keys, of bits per key and of probes. */
  lemma ReportsWhen(n: nat, bitsPerKey: nat, k: nat)
    requires 1 <= k <= MAX_K
    ensures AlwaysReports(n, bitsPerKey, k) <==> Bits(n, bitsPerKey) < U32
  {
    hide FilterBits, Asked;
    if Bits(n, bitsPerKey) < U32 {
      forall keys: seq<nat>, filter, h |
        |keys| == n && (forall x :: x in keys ==> x < U32) && FilterBits(filter, keys, bitsPerKey, k) && h in keys
        ensures Asked(filter, k, h) == Said(true)
      {
        NoFalseNegative(filter, keys, bitsPerKey, k, h);
      }
    } else {
      var keys := AllOnes(n);
      var filter := SomeFilter(keys, bitsPerKey, k);
      AllOnesDenied(filter, n, bitsPerKey, k);
      assert U32 - 1 == keys[0];
      assert U32 - 1 in keys;
    }
  }

  /** No false negatives while the bit count fits 32 bits. */
  lemma NoFalseNegative(filter: seq<bv8>, keys: seq<nat>, bitsPerKey: nat, k: nat, h: nat)
    requires h in keys && FilterBits(filter, keys, bitsPerKey, k) && Bits(|keys|, bitsPerKey) < U32
    ensures Asked(filter, k, h) == Said(true)
  {
    hide GetBit, Probe, Marked;
    var a :| 0 <= a < |keys| && keys[a] == h;
    assert 8 * |filter| % U32 == 8 * |filter|;
    forall i: nat | i < k ensures GetBit(filter, Probe(h, i) % (8 * |filter| % U32)) {
      ProbedIsMarked(keys, a, i, k, 8 * |filter|);
    }
  }

  lemma ProbedIsMarked(keys: seq<nat>, a: nat, i: nat, k: nat, nbits: nat)
    requires a < |keys| && i < k && nbits > 0
    ensures Marked(keys, |keys|, 0, k, nbits, Probe(keys[a], i) % nbits)
  {
    hide Probe;
  }

  function AllOnes(n: nat): seq<nat> { seq<nat>(n, _ => U32 - 1) }

  /** The hash of all ones steps down by one, so its probes lie at the very end of the 32-bit range. */
  lemma ProbesOfAllOnes(i: nat)
    requires i < MAX_K
    ensures Probe(U32 - 1, i) == U32 - 1 - i
  {
    assert Delta(U32 - 1) == U32 - 1;
    assert U32 - 1 + i * (U32 - 1) == i * U32 + (U32 - 1 - i);
    ModShift(U32 - 1 - i, i);
  }

  /** From 2^32 bits on, keys with the hash of all ones are never reported: the reader looks below
    * the top of the range, or divides by zero. */
  lemma AllOnesDenied(filter: seq<bv8>, n: nat, bitsPerKey: nat, k: nat)
    requires 1 <= k <= MAX_K && FilterBits(filter, AllOnes(n), bitsPerKey, k) && Bits(n, bitsPerKey) >= U32
    ensures Asked(filter, k, U32 - 1) == if Bits(n, bitsPerKey) % U32 == 0 then Panicked else Said(false)
  {
    hide GetBit, Probe, Marked, Bits;
    var nbits := Bits(n, bitsPerKey);
    var m := nbits % U32;
    if m > 0 {
      ProbesOfAllOnes(0);
      BelowTheTop(m, k);
      Unmarked(n, k, nbits, (U32 - 1) % m);
      assert !GetBit(filter, Probe(U32 - 1, 0) % m);
    }
  }

  /** A remainder never reaches the top of the range: a divisor that large leaves almost nothing. */
  lemma BelowTheTop(m: nat, k: nat)
    requires 0 < m < U32 && k <= MAX_K
    ensures (U32 - 1) % m < U32 - k
  {}

  lemma Unmarked(n: nat, k: nat, nbits: nat, p: nat)
    requires k <= MAX_K && nbits >= U32 && p < U32 - k
    ensures !Marked(AllOnes(n), n, 0, k, nbits, p)
  {
    hide Probe;
    forall a: nat, i: nat | a < n && i < k ensures p != Probe(AllOnes(n)[a], i) % nbits { ProbesOfAllOnes(i); }
  }

  /** One byte with the given bits. */
  function ByteOf(s: nat -> bool): bv8 {
    (if s(0) then 1 else 0) | (if s(1) then 2 else 0) | (if s(2) then 4 else 0) | (if s(3) then 8 else 0)
    | (if s(4) then 16 else 0) | (if s(5) then 32 else 0) | (if s(6) then 64 else 0) | (if s(7) then 128 else 0)
  }

  lemma ByteOfBits(s: nat -> bool, j: nat)
    requires j < 8
    ensures GetBit8(ByteOf(s), j as bv8) <==> s(j)
  {
    if j == 0 {} else if j == 1 {} else if j == 2 {} else if j == 3 {}
    else if j == 4 {} else if j == 5 {} else if j == 6 {} else {}
  }

  lemma SomeFilter(keys: seq<nat>, bitsPerKey: nat, k: nat) returns (filter: seq<bv8>)
    ensures FilterBits(filter, keys, bitsPerKey, k)
  {
    hide Marked, ByteOf, GetBit8;
    var nbits := Bits(|keys|, bitsPerKey);
    filter := seq(nbits / 8, b requires 0 <= b < nbits / 8 => ByteOf(MarksIn(keys, k, nbits, b)));
    forall p: nat | p < nbits ensures GetBit(filter, p) <==> Marked(keys, |keys|, 0, k, nbits, p) {
      ByteOfBits(MarksIn(keys, k, nbits, p / 8), p % 8);
    }
  }

  ghost function MarksIn(keys: seq<nat>, k: nat, nbits: nat, b: nat): nat -> bool
    requires nbits > 0
  {
    (j: nat) => Marked(keys, |keys|, 0, k, nbits, 8 * b + j)
  }

  /** A table of 2^22 versions of one user key at 1025 bits per key can be told that it does not hold
    * the key; at 1024 bits per key the reader divides by zero. */
  lemma FalseNegative(filter: seq<bv8>, bitsPerKey: nat)
    requires bitsPerKey == 1024 || bitsPerKey == 1025
    requires FilterBits(filter, AllOnes(0x40_0000), bitsPerKey, MAX_K)
    ensures Asked(filter, MAX_K, U32 - 1) == if bitsPerKey == 1024 then Panicked else Said(false)
  {
    AllOnesDenied(filter, 0x40_0000, bitsPerKey, MAX_K);
  }

  // ------------------------------------------------------------ as stored in a table

  function ToBytes(filter: seq<bv8>): (b: Bytes)
    ensures |b| == |filter|
  {
    seq(|filter|, i requires 0 <= i < |filter| => filter[i] as nat)
  }

  function FromBytes(b: Bytes): (filter: seq<bv8>)
    ensures |filter| == |b|
  {
    seq(|b|, i requires 0 <= i < |b| => b[i] as bv8)
  }

  lemma BytesRoundTrip(filter: seq<bv8>)
    ensures FromBytes(ToBytes(filter)) == filter
  {
    forall i | 0 <= i < |filter| ensures FromBytes(ToBytes(filter))[i] == filter[i] { ByteRoundTrip(filter[i]); }
  }

  lemma ByteRoundTrip(b: bv8)
    ensures (b as nat) < 256 && (b as nat) as bv8 == b
  {}

  /** The filter followed by the number of probes. */
  function Stored(filter: seq<bv8>, k: nat): Bytes
    requires k < 256
  {
    ToBytes(filter) + [k]
  }
}
