/** Byte strings and the fixed-width and variable-width integer codecs the formats use. */
module Bytes {
  import opened Wrappers

  type byte = x: nat | x < 256
  type Bytes = seq<byte>

  const U32: nat := 0x1_0000_0000
  const U64: nat := 0x1_0000_0000_0000_0000

  function Zeroed(n: nat): Bytes { seq(n, _ => 0) }

  // ------------------------------------------------------------ fixed width

  /** `put_u32_le` of a value cast to u32 */
  function LE32(n: nat): (b: Bytes)
    ensures |b| == 4
  {
    [n % 256, n / 256 % 256, n / 256 / 256 % 256, n / 256 / 256 / 256 % 256]
  }

  /** `get_u32_le` */
  function FromLE32(b: Bytes): (n: nat)
    requires |b| == 4
    ensures n < U32
  {
    b[0] as nat + 256 * (b[1] as nat + 256 * (b[2] as nat + 256 * (b[3] as nat)))
  }

  lemma LE32RoundTrip(n: nat)
    requires n < U32
    ensures FromLE32(LE32(n)) == n
  {
    var q := n / 256;
    var r := q / 256;
    assert q == 256 * r + q % 256 && r == 256 * (r / 256) + r % 256;
  }

  /** `put_u32` of a value cast to u32 */
  function BE32(n: nat): (b: Bytes)
    ensures |b| == 4
  {
    [n / 256 / 256 / 256 % 256, n / 256 / 256 % 256, n / 256 % 256, n % 256]
  }

  /** `get_u32` */
  function FromBE32(b: Bytes): (n: nat)
    requires |b| == 4
    ensures n < U32
  {
    FromLE32([b[3], b[2], b[1], b[0]])
  }

  lemma BE32RoundTrip(n: nat)
    requires n < U32
    ensures FromBE32(BE32(n)) == n
  {
    LE32RoundTrip(n);
  }

  lemma SplitLow(a: nat, q: nat)
    requires a < 256
    ensures (a + 256 * q) % 256 == a && (a + 256 * q) / 256 == q
  {}

  /** Least significant byte first. */
  lemma LE32Bytes(b: Bytes)
    requires |b| == 4
    ensures FromLE32(b) == b[0] as int + 0x100 * b[1] as int + 0x1_0000 * b[2] as int + 0x100_0000 * b[3] as int
    ensures LE32(FromLE32(b)) == b
  {
    hide LE32;
    var q := b[2] as nat + 256 * b[3] as nat;
    var r := b[1] as nat + 256 * q;
    SplitLow(b[3], 0);
    SplitLow(b[2], b[3]);
    SplitLow(b[1], q);
    SplitLow(b[0], r);
    LE32Is(b[0] as nat + 256 * r, r, q, b[3]);
  }

  lemma LE32Is(n: nat, r: nat, q: nat, top: byte)
    requires r == n / 256 && q == r / 256 && q / 256 == top
    ensures LE32(n) == [n % 256, r % 256, q % 256, top % 256]
  {}

  /** Most significant byte first. */
  lemma BE32Bytes(b: Bytes)
    requires |b| == 4
    ensures FromBE32(b) == 0x100_0000 * b[0] as int + 0x1_0000 * b[1] as int + 0x100 * b[2] as int + b[3] as int
    ensures BE32(FromBE32(b)) == b
  {
    hide LE32, BE32, FromLE32;
    var back := [b[3], b[2], b[1], b[0]];
    LE32Bytes(back);
    BE32Is(FromBE32(b));
  }

  lemma BE32Is(n: nat)
    ensures BE32(n) == [LE32(n)[3], LE32(n)[2], LE32(n)[1], LE32(n)[0]]
  {}

  // ------------------------------------------------------------ Base 128 varints

  const MAX_VARINT: nat := 10

  function EncodeVarint(n: nat): (b: Bytes)
    ensures b != []
  {
    if n < 128 then [n] else [n % 128 + 128] + EncodeVarint(n / 128)
  }

  /** Reads at most `fuel` bytes; None stands for prost's decode error. */
  function DecodeDigits(b: Bytes, fuel: nat): Option<(nat, Bytes)> {
    if fuel == 0 || b == [] then None
    else if b[0] < 128 then Some((b[0], b[1..]))
    else
      match DecodeDigits(b[1..], fuel - 1)
      case None => None
      case Some((v, rest)) => Some((b[0] - 128 + 128 * v, rest))
  }

  lemma {:induction false} DigitsShrink(b: Bytes, fuel: nat)
    ensures DecodeDigits(b, fuel).Some? ==> |DecodeDigits(b, fuel).value.1| < |b|
  {
    if fuel > 0 && b != [] { DigitsShrink(b[1..], fuel - 1); }
  }

  /** prost's decode_varint: ten bytes at most, the value kept in 64 bits. */
  function DecodeVarint(b: Bytes): Option<(nat, Bytes)> {
    match DecodeDigits(b, MAX_VARINT)
    case None => None
    case Some((v, rest)) => Some((v % U64, rest))
  }

  function Pow128(k: nat): nat { if k == 0 then 1 else 128 * Pow128(k - 1) }

  lemma {:induction false} EncodedLength(n: nat, k: nat)
    requires 0 < k && n < Pow128(k)
    ensures |EncodeVarint(n)| <= k
  {
    if n >= 128 {
      assert k > 1;
      EncodedLength(n / 128, k - 1);
    }
  }

  lemma {:induction false} DecodeEncoded(n: nat, rest: Bytes, fuel: nat)
    requires |EncodeVarint(n)| <= fuel
    ensures DecodeDigits(EncodeVarint(n) + rest, fuel) == Some((n, rest))
  {
    var b := EncodeVarint(n) + rest;
    if n < 128 {
      assert b[1..] == rest;
    } else {
      assert b[1..] == EncodeVarint(n / 128) + rest;
      DecodeEncoded(n / 128, rest, fuel - 1);
    }
  }

  lemma {:induction false} DecodeCut(n: nat, cut: nat, fuel: nat)
    requires cut < |EncodeVarint(n)|
    ensures DecodeDigits(EncodeVarint(n)[..cut], fuel) == None
  {
    if cut > 0 && fuel > 0 {
      assert n >= 128;
      assert EncodeVarint(n)[..cut][1..] == EncodeVarint(n / 128)[..cut - 1];
      DecodeCut(n / 128, cut - 1, fuel - 1);
    }
  }

  lemma VarintBytes(n: nat)
    requires n < U64
    ensures |EncodeVarint(n)| <= MAX_VARINT
    ensures n < U32 ==> |EncodeVarint(n)| <= 5
  {
    assert U64 < Pow128(10) && U32 < Pow128(5);
    EncodedLength(n, 10);
    if n < U32 { EncodedLength(n, 5); }
  }

  /** A varint survives a round trip, whatever follows it; cut short it is a decode error. */
  lemma VarintRoundTrip(n: nat, rest: Bytes)
    requires n < U64
    ensures DecodeVarint(EncodeVarint(n) + rest) == Some((n, rest))
    ensures forall cut :: 0 <= cut < |EncodeVarint(n)| ==> DecodeVarint(EncodeVarint(n)[..cut]) == None
  {
    hide DecodeDigits, EncodeVarint;
    VarintBytes(n);
    DecodeEncoded(n, rest, MAX_VARINT);
    forall cut | 0 <= cut < |EncodeVarint(n)| ensures DecodeVarint(EncodeVarint(n)[..cut]) == None {
      DecodeCut(n, cut, MAX_VARINT);
    }
  }

  /** The number a group of seven-bit digits stands for, least significant group first. */
  function VarintSum(b: Bytes): nat {
    if b == [] then 0 else b[0] as nat % 128 + 128 * VarintSum(b[1..])
  }

  /** Base 128 varint: the top bit marks every byte but the last, and no zero group is appended. */
  predicate IsVarint(b: Bytes, n: nat) {
    && b != [] && VarintSum(b) == n
    && (forall i :: 0 <= i < |b| - 1 ==> b[i] >= 128)
    && b[|b| - 1] < 128
    && (|b| > 1 ==> b[|b| - 1] != 0)
  }

  lemma {:induction false} VarintFormat(n: nat)
    ensures IsVarint(EncodeVarint(n), n)
  {
    var b := EncodeVarint(n);
    if n < 128 {
      assert b[1..] == [] && VarintSum([]) == 0;
    } else {
      VarintFormat(n / 128);
      assert b[1..] == EncodeVarint(n / 128);
      assert b[|b| - 1] == b[1..][|b| - 2];
      forall i | 0 < i < |b| - 1 ensures b[i] >= 128 { assert b[i] == b[1..][i - 1]; }
    }
  }

  /** One to ten bytes of which only the last has its top bit clear. */
  predicate Group(d: Bytes) {
    && 1 <= |d| <= 10 && d[|d| - 1] < 128
    && forall i :: 0 <= i < |d| - 1 ==> d[i] >= 128
  }

  lemma {:induction false} DigitsAre(b: Bytes, fuel: nat, d: Bytes, rest: Bytes)
    requires 1 <= |d| <= fuel && d[|d| - 1] < 128 && (forall i :: 0 <= i < |d| - 1 ==> d[i] >= 128) && b == d + rest
    ensures DecodeDigits(b, fuel) == Some((VarintSum(d), rest))
  {
    assert b[0] == d[0] && b[1..] == d[1..] + rest;
    if |d| > 1 {
      DigitsAre(b[1..], fuel - 1, d[1..], rest);
    } else {
      assert d[1..] == [] && VarintSum([]) == 0;
    }
  }

  lemma {:induction false} DigitsFound(b: Bytes, fuel: nat) returns (d: Bytes)
    requires DecodeDigits(b, fuel).Some?
    ensures 1 <= |d| <= fuel && d[|d| - 1] < 128 && (forall i :: 0 <= i < |d| - 1 ==> d[i] >= 128)
    ensures b == d + DecodeDigits(b, fuel).value.1
  {
    if b[0] < 128 {
      d := [b[0]];
    } else {
      var more := DigitsFound(b[1..], fuel - 1);
      d := [b[0]] + more;
      forall i | 0 <= i < |d| - 1 ensures d[i] >= 128 { if i > 0 { assert d[i] == more[i - 1]; } }
    }
  }

  /** What the decoder accepts: a group at the front, its number kept in 64 bits. */
  lemma DecodeVarintIs(b: Bytes, n: nat, rest: Bytes)
    ensures DecodeVarint(b) == Some((n, rest)) <==> exists d :: Group(d) && b == d + rest && n == VarintSum(d) % U64
  {
    hide DecodeDigits, VarintSum;
    if DecodeVarint(b) == Some((n, rest)) {
      var d := DigitsFound(b, MAX_VARINT);
      DigitsAre(b, MAX_VARINT, d, rest);
      assert Group(d);
    }
    if d :| Group(d) && b == d + rest && n == VarintSum(d) % U64 {
      DigitsAre(b, MAX_VARINT, d, rest);
    }
  }

  // ------------------------------------------------------------ lexicographic order

  predicate LexLess(a: Bytes, b: Bytes) {
    b != [] && (a == [] || a[0] < b[0] || (a[0] == b[0] && LexLess(a[1..], b[1..])))
  }

  lemma {:induction false} LexIrreflexive(a: Bytes)
    ensures !LexLess(a, a)
  {
    if a != [] { LexIrreflexive(a[1..]); }
  }

  lemma {:induction false} LexTransitive(a: Bytes, b: Bytes, c: Bytes)
    requires LexLess(a, b) && LexLess(b, c)
    ensures LexLess(a, c)
  {
    if a != [] && a[0] == b[0] == c[0] { LexTransitive(a[1..], b[1..], c[1..]); }
  }

  lemma {:induction false} LexTotal(a: Bytes, b: Bytes)
    ensures LexLess(a, b) || a == b || LexLess(b, a)
  {
    if a != [] && b != [] && a[0] == b[0] {
      LexTotal(a[1..], b[1..]);
      assert a == [a[0]] + a[1..] && b == [b[0]] + b[1..];
    }
  }

  /** a and b agree on n bytes, and then a ends or has the smaller byte. */
  predicate SmallerAt(a: Bytes, b: Bytes, n: nat) {
    n <= |a| && n < |b| && a[..n] == b[..n] && (n == |a| || a[n] < b[n])
  }

  /** Byte slices compare by their first difference, a proper prefix being smaller. */
  lemma {:induction false} LexIsFirstDifference(a: Bytes, b: Bytes)
    ensures LexLess(a, b) <==> exists n :: SmallerAt(a, b, n)
  {
    if b != [] && a == [] {
      assert SmallerAt(a, b, 0);
    } else if a != [] && b != [] {
      LexIsFirstDifference(a[1..], b[1..]);
      if a[0] < b[0] { assert SmallerAt(a, b, 0); }
      forall n: nat | SmallerAt(a[1..], b[1..], n) && a[0] == b[0] ensures SmallerAt(a, b, n + 1) {
        assert a[..n + 1] == [a[0]] + a[1..][..n] && b[..n + 1] == [b[0]] + b[1..][..n];
      }
      forall n: nat | SmallerAt(a, b, n) && n > 0 ensures a[0] == b[0] && SmallerAt(a[1..], b[1..], n - 1) {
        assert a[0] == a[..n][0] == b[..n][0] == b[0];
        assert a[1..][..n - 1] == a[..n][1..] && b[1..][..n - 1] == b[..n][1..];
      }
    }
  }
}
