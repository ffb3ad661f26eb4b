/** `Value` of src/value.rs, as the table builder and iterators use it. */
module Values {
  import opened Wrappers
  import opened Bytes

  datatype Value = Value(meta: byte, userMeta: byte, expiresAt: nat, value: Bytes, version: nat)

  /** `encode_var`: no continuation bit is set, and the loop stops at 0x128 rather than 0x80. */
  function EncodeVar(data: nat): (b: Bytes)
    ensures b != []
  {
    if data >= 0x128 then [data % 128] + EncodeVar(data / 128) else [data % 256]
  }

  /** `decode_var`: its loop guard is false on entry, so any first byte but 0 ends in the panic (None). */
  function DecodeVar(b: Bytes): Option<(nat, nat)> {
    if b != [] && b[0] == 0 then Some((0, 1)) else None
  }

  function Encode(v: Value): Bytes { [v.meta, v.userMeta] + EncodeVar(v.expiresAt) + v.value }

  function Decode(b: Bytes): Option<Value> {
    if |b| < 2 then None else
    match DecodeVar(b[2..])
    case None => None
    case Some((expiresAt, used)) => Some(Value(b[0], b[1], expiresAt, b[2 + used..], 0))
  }

  function VarSize(n: nat): nat {
    if n >= 0x1000_0000 then
      if n < 0x8_0000_0000 then 5
      else if n < 0x400_0000_0000 then 6
      else if n < 0x2_0000_0000_0000 then 7
      else if n < 0x100_0000_0000_0000 then 8
      else if n < 0x8000_0000_0000_0000 then 9
      else 10
    else if n >= 0x20_0000 then 4
    else if n >= 0x4000 then 3
    else if n >= 128 then 2
    else 1
  }

  function EncodedSize(v: Value): nat {
    |v.value| + 2 + if v.expiresAt == 0 then 1 else VarSize(v.expiresAt)
  }

  lemma {:induction false} EncodeVarLength(n: nat, k: nat)
    requires 0 < k && n < Pow128(k)
    ensures |EncodeVar(n)| <= k
  {
    if n >= 0x128 {
      assert k > 1;
      EncodeVarLength(n / 128, k - 1);
    }
  }

  /** `var_size` is the length of the Base 128 varint. */
  lemma VarSizeIs(n: nat)
    requires n < U64
    ensures VarSize(n) == |EncodeVarint(n)|
  {
    hide VarSize;
    VarSizeRange(n);
    hide Pow128;
    VarintLength(n, VarSize(n));
  }

  lemma VarSizeRange(n: nat)
    requires n < U64
    ensures var k := VarSize(n); 0 < k && n < Pow128(k) && (k == 1 || Pow128(k - 1) <= n)
  {
    assert Pow128(0) == 1 && Pow128(1) == 128 && Pow128(2) == 0x4000 && Pow128(3) == 0x20_0000 && Pow128(4) == 0x1000_0000;
    assert Pow128(5) == 0x8_0000_0000;
    assert Pow128(6) == 0x400_0000_0000 && Pow128(7) == 128 * Pow128(6) && Pow128(8) == 128 * Pow128(7);
    assert Pow128(9) == 128 * Pow128(8) && Pow128(10) == 128 * Pow128(9);
  }

  lemma {:induction false} VarintLength(n: nat, k: nat)
    requires 0 < k && n < Pow128(k) && (k == 1 || Pow128(k - 1) <= n)
    ensures |EncodeVarint(n)| == k
  {
    if n >= 128 {
      assert k > 1;
      VarintLength(n / 128, k - 1);
    }
  }

  lemma EncodedSizeIs(v: Value)
    requires v.expiresAt < U64
    ensures EncodedSize(v) == |v.value| + 2 + |EncodeVarint(v.expiresAt)|
  {
    VarSizeIs(v.expiresAt);
  }

  /** `encoded_size` never understates what `encode` writes. */
  lemma EncodedSizeCovers(v: Value)
    requires v.expiresAt < U64
    ensures |Encode(v)| <= EncodedSize(v)
  {
    var n := v.expiresAt;
    assert Pow128(5) == 0x8_0000_0000 && Pow128(1) == 128;
    assert Pow128(10) == 128 * (128 * (128 * (128 * (128 * Pow128(5)))));
    assert Pow128(9) == 128 * (128 * (128 * (128 * Pow128(5))));
    assert Pow128(8) == 128 * (128 * (128 * Pow128(5)));
    assert Pow128(7) == 128 * (128 * Pow128(5)) && Pow128(6) == 128 * Pow128(5);
    EncodeVarLength(n, VarSize(n));
  }

  /** `decode` inverts `encode` exactly for values that carry neither an expiry nor a version. */
  lemma DecodeInverts(v: Value)
    ensures Decode(Encode(v)) == Some(v) <==> v.expiresAt == 0 && v.version == 0
  {
    var b := Encode(v);
    assert b[2..] == EncodeVar(v.expiresAt) + v.value;
    if v.expiresAt == 0 {
      assert b[3..] == v.value;
    }
  }

  /** An expiry that decodes at all decodes to "never expires". */
  lemma ExpiryIsLost(v: Value)
    ensures Decode(Encode(v)).Some? <==> v.expiresAt == 0x100 || (v.expiresAt % 128 == 0 && (v.expiresAt == 0 || v.expiresAt >= 0x128))
    ensures Decode(Encode(v)).Some? ==> Decode(Encode(v)).value.expiresAt == 0
  {
    var b := Encode(v);
    assert b[2..] == EncodeVar(v.expiresAt) + v.value;
  }

  /** An input that cannot be decoded again: no data, expiring at 1. */
  lemma ExpiryOfOne()
    ensures Encode(Value(0, 0, 1, [], 0)) == [0, 0, 1] && Decode([0, 0, 1]) == None
  {
    ExpiryIsLost(Value(0, 0, 1, [], 0));
  }

  /** A stored value: its two flag bytes, the expiry, then the data; without an expiry that is one zero byte. */
  lemma ValueLayout(v: Value)
    ensures var b := Encode(v);
            && |b| >= 3 + |v.value| && b[0] == v.meta && b[1] == v.userMeta && b[|b| - |v.value|..] == v.value
            && (v.expiresAt == 0 ==> b == [v.meta, v.userMeta, 0] + v.value)
  {
    hide EncodeVar;
    if v.expiresAt == 0 {
      NoExpiry();
      assert [v.meta, v.userMeta] + [0] == [v.meta, v.userMeta, 0];
    }
  }

  lemma NoExpiry()
    ensures EncodeVar(0) == [0]
  {}

  /** n shifted right by seven bits, i times. */
  function Shifted(n: nat, i: nat): nat { if i == 0 then n else Shifted(n / 128, i - 1) }

  /** The bytes of an expiry: seven-bit groups without a mark, up to the first rest below 0x128, whose low byte ends it. */
  lemma {:induction false} ExpiryBytes(n: nat)
    ensures var b := EncodeVar(n);
            && (forall i: nat :: i < |b| - 1 ==> Shifted(n, i) >= 0x128 && b[i] == Shifted(n, i) % 128)
            && Shifted(n, |b| - 1) < 0x128 && b[|b| - 1] == Shifted(n, |b| - 1) % 256
  {
    if n >= 0x128 {
      ExpiryBytes(n / 128);
      var b, rest := EncodeVar(n), EncodeVar(n / 128);
      assert b[1..] == rest;
      forall i: nat | i < |b| - 1 ensures Shifted(n, i) >= 0x128 && b[i] == Shifted(n, i) % 128 {
        if i > 0 { assert b[i] == rest[i - 1]; }
      }
      assert b[|b| - 1] == rest[|rest| - 1];
    }
  }
}
