/** Timestamped keys: src/format.rs and the comparator of skiplist/src/key.rs with an 8-byte suffix. */
module Keys {
  import opened Bytes

  const TS_LEN: nat := 8

  /** The comparator panics on anything shorter. */
  type Key = k: Bytes | |k| >= TS_LEN witness Zeroed(TS_LEN)

  function UserKey(k: Key): Bytes { k[..|k| - TS_LEN] }

  function Suffix(k: Key): (s: Bytes)
    ensures |s| == TS_LEN
  {
    k[|k| - TS_LEN..]
  }

  /** `compare_key` == Less */
  predicate Before(a: Key, b: Key) {
    LexLess(UserKey(a), UserKey(b)) || (UserKey(a) == UserKey(b) && LexLess(Suffix(a), Suffix(b)))
  }

  datatype Ordering = Less | Equal | Greater

  function CompareBytes(a: Bytes, b: Bytes): Ordering {
    if LexLess(a, b) then Less else if a == b then Equal else Greater
  }

  /** `FixedLengthSuffixComparator::compare_key` */
  function Compare(a: Key, b: Key): Ordering {
    match CompareBytes(UserKey(a), UserKey(b))
    case Less => Less
    case Greater => Greater
    case Equal => CompareBytes(Suffix(a), Suffix(b))
  }

  /** `same_key` */
  predicate SameKey(a: Key, b: Key) { UserKey(a) == UserKey(b) }

  lemma KeySplit(a: Key)
    ensures a == UserKey(a) + Suffix(a)
  {}

  lemma BeforeIrreflexive(a: Key)
    ensures !Before(a, a)
  {
    LexIrreflexive(UserKey(a));
    LexIrreflexive(Suffix(a));
  }

  lemma BeforeTransitive(a: Key, b: Key, c: Key)
    requires Before(a, b) && Before(b, c)
    ensures Before(a, c)
  {
    if LexLess(UserKey(a), UserKey(b)) && LexLess(UserKey(b), UserKey(c)) {
      LexTransitive(UserKey(a), UserKey(b), UserKey(c));
    } else if UserKey(a) == UserKey(b) == UserKey(c) {
      LexTransitive(Suffix(a), Suffix(b), Suffix(c));
    }
  }

  lemma BeforeTotal(a: Key, b: Key)
    ensures Before(a, b) || a == b || Before(b, a)
  {
    LexTotal(UserKey(a), UserKey(b));
    LexTotal(Suffix(a), Suffix(b));
    KeySplit(a);
    KeySplit(b);
  }

  /** The comparator is a strict total order, and it calls two keys Equal only when they are the same bytes. */
  lemma CompareIsTotalOrder(a: Key, b: Key, c: Key)
    ensures Compare(a, b) == if Before(a, b) then Less else if a == b then Equal else Greater
    ensures Compare(a, b) == Greater <==> Compare(b, a) == Less
    ensures Compare(a, b) == Less && Compare(b, c) == Less ==> Compare(a, c) == Less
  {
    CompareIsBefore(a, b);
    CompareIsBefore(b, a);
    CompareIsBefore(b, c);
    CompareIsBefore(a, c);
    hide Compare, Before;
    if Before(a, b) && Before(b, c) { BeforeTransitive(a, b, c); }
  }

  lemma CompareIsBefore(a: Key, b: Key)
    ensures Compare(a, b) == if Before(a, b) then Less else if a == b then Equal else Greater
    ensures Compare(a, b) == Greater <==> Before(b, a)
  {
    BeforeTotal(a, b);
    BeforeIrreflexive(a);
    if Before(a, b) && Before(b, a) {
      BeforeTransitive(a, b, a);
    }
    LexTotal(UserKey(a), UserKey(b));
    LexIrreflexive(UserKey(a));
    if LexLess(UserKey(a), UserKey(b)) && LexLess(UserKey(b), UserKey(a)) {
      LexTransitive(UserKey(a), UserKey(b), UserKey(a));
    }
    KeySplit(a);
    KeySplit(b);
  }

  /** The order facts in the quantified form that proofs over sequences use. */
  lemma KeyOrder()
    ensures forall a: Key :: !Before(a, a)
    ensures forall a: Key, b: Key, c: Key {:trigger Before(a, b), Before(b, c)} :: Before(a, b) && Before(b, c) ==> Before(a, c)
    ensures forall a: Key, b: Key {:trigger Before(a, b)} :: Before(a, b) || a == b || Before(b, a)
  {
    forall a: Key ensures !Before(a, a) { BeforeIrreflexive(a); }
    forall a: Key, b: Key, c: Key | Before(a, b) && Before(b, c) ensures Before(a, c) { BeforeTransitive(a, b, c); }
    forall a: Key, b: Key ensures Before(a, b) || a == b || Before(b, a) { BeforeTotal(a, b); }
  }

  // ------------------------------------------------------------ timestamps

  /** Big-endian digits of n, `width` of them. */
  function BigEndian(n: nat, width: nat): (b: Bytes)
    ensures |b| == width
  {
    if width == 0 then [] else BigEndian(n / 256, width - 1) + [n % 256]
  }

  function FromBigEndian(b: Bytes): nat {
    if b == [] then 0 else FromBigEndian(b[..|b| - 1]) * 256 + b[|b| - 1]
  }

  function Pow256(k: nat): nat { if k == 0 then 1 else 256 * Pow256(k - 1) }

  lemma {:induction false} BigEndianRoundTrip(n: nat, width: nat)
    requires n < Pow256(width)
    ensures FromBigEndian(BigEndian(n, width)) == n
  {
    if width > 0 {
      var b := BigEndian(n, width);
      assert b[..|b| - 1] == BigEndian(n / 256, width - 1);
      BigEndianRoundTrip(n / 256, width - 1);
    }
  }

  lemma {:induction false} FromBigEndianRoundTrip(b: Bytes)
    ensures FromBigEndian(b) < Pow256(|b|)
    ensures BigEndian(FromBigEndian(b), |b|) == b
  {
    if b != [] {
      FromBigEndianRoundTrip(b[..|b| - 1]);
      var n := FromBigEndian(b);
      assert n / 256 == FromBigEndian(b[..|b| - 1]) && n % 256 == b[|b| - 1];
    }
  }

  /** `append_ts`: the complement, so that newer versions sort first. */
  function KeyWithTs(user: Bytes, ts: nat): (k: Key)
    requires ts < U64
  {
    user + BigEndian(U64 - 1 - ts, TS_LEN)
  }

  /** `get_ts` */
  function GetTs(k: Key): int { U64 - 1 - FromBigEndian(Suffix(k)) }

  lemma TsWidth()
    ensures Pow256(TS_LEN) == U64
  {
    assert Pow256(4) == 0x1_0000_0000;
    assert Pow256(8) == 256 * (256 * (256 * (256 * Pow256(4))));
  }

  /** Building and taking apart a timestamped key undo each other. */
  lemma KeyParts(user: Bytes, ts: nat)
    requires ts < U64
    ensures UserKey(KeyWithTs(user, ts)) == user && GetTs(KeyWithTs(user, ts)) == ts
  {
    TsWidth();
    BigEndianRoundTrip(U64 - 1 - ts, TS_LEN);
    assert Suffix(KeyWithTs(user, ts)) == BigEndian(U64 - 1 - ts, TS_LEN);
  }

  lemma KeyFromParts(k: Key)
    ensures 0 <= GetTs(k) < U64 && k == KeyWithTs(UserKey(k), GetTs(k))
  {
    TsWidth();
    FromBigEndianRoundTrip(Suffix(k));
    KeySplit(k);
  }

  lemma {:induction false} LexSnoc(a: Bytes, b: Bytes, x: byte, y: byte)
    requires |a| == |b|
    ensures LexLess(a + [x], b + [y]) <==> LexLess(a, b) || (a == b && x < y)
  {
    if a == [] {
      assert a + [x] == [x] && b + [y] == [y];
    } else {
      assert (a + [x])[1..] == a[1..] + [x] && (b + [y])[1..] == b[1..] + [y];
      LexSnoc(a[1..], b[1..], x, y);
      assert a == [a[0]] + a[1..] && b == [b[0]] + b[1..];
    }
  }

  lemma {:induction false} LexIsNumeric(a: Bytes, b: Bytes)
    requires |a| == |b|
    ensures LexLess(a, b) <==> FromBigEndian(a) < FromBigEndian(b)
  {
    if a != [] {
      var n := |a| - 1;
      LexIsNumeric(a[..n], b[..n]);
      LexSnoc(a[..n], b[..n], a[n], b[n]);
      assert a == a[..n] + [a[n]] && b == b[..n] + [b[n]];
      if FromBigEndian(a[..n]) == FromBigEndian(b[..n]) {
        FromBigEndianRoundTrip(a[..n]);
        FromBigEndianRoundTrip(b[..n]);
      }
    }
  }

  /** `compare_key` on timestamped keys: user keys ascending, then versions descending. */
  lemma VersionOrder(a: Key, b: Key)
    ensures Before(a, b) <==> LexLess(UserKey(a), UserKey(b)) || (UserKey(a) == UserKey(b) && GetTs(a) > GetTs(b))
  {
    LexIsNumeric(Suffix(a), Suffix(b));
  }

  /** `compare_key`, spelled out: the user keys by their first differing byte, a proper prefix first; on
    * equal user keys the greater timestamp first. */
  lemma CompareIsLexicographic(a: Key, b: Key)
    ensures Compare(a, b) == Less <==>
      || (exists n :: SmallerAt(UserKey(a), UserKey(b), n))
      || (UserKey(a) == UserKey(b) && GetTs(a) > GetTs(b))
  {
    hide Compare, UserKey, GetTs, LexLess, Before;
    CompareIsBefore(a, b);
    VersionOrder(a, b);
    LexIsFirstDifference(UserKey(a), UserKey(b));
  }

  /** A timestamped key is the user key and then eight bytes, the complement of the timestamp, most
    * significant byte first. */
  lemma KeyLayout(user: Bytes, ts: nat)
    requires ts < U64
    ensures var k := KeyWithTs(user, ts);
            && |k| == |user| + 8 && k[..|user|] == user
            && var s := k[|user|..];
               ((((((s[0] as int * 256 + s[1]) * 256 + s[2]) * 256 + s[3]) * 256 + s[4]) * 256 + s[5]) * 256 + s[6]) * 256 + s[7]
                 == U64 - 1 - ts
  {
    hide BigEndian, FromBigEndian, Pow256;
    TsWidth();
    BigEndianRoundTrip(U64 - 1 - ts, TS_LEN);
    var s := BigEndian(U64 - 1 - ts, TS_LEN);
    assert KeyWithTs(user, ts)[|user|..] == s;
    Digits(s);
  }

  lemma Digits(s: Bytes)
    requires |s| == 8
    ensures FromBigEndian(s)
         == ((((((s[0] as int * 256 + s[1]) * 256 + s[2]) * 256 + s[3]) * 256 + s[4]) * 256 + s[5]) * 256 + s[6]) * 256 + s[7]
  {
    forall n: nat | n < 8 ensures FromBigEndian(s[..n + 1]) == FromBigEndian(s[..n]) * 256 + s[n] {
      assert s[..n + 1][..n] == s[..n];
    }
    assert s[..0] == [] && s[..8] == s;
    hide FromBigEndian;
    NoDigits();
    assert FromBigEndian(s[..1]) == s[0];
    assert FromBigEndian(s[..2]) == s[0] as int * 256 + s[1];
    assert FromBigEndian(s[..4]) == ((s[0] as int * 256 + s[1]) * 256 + s[2]) * 256 + s[3] by {
      assert FromBigEndian(s[..3]) == FromBigEndian(s[..2]) * 256 + s[2];
      assert FromBigEndian(s[..3 + 1]) == FromBigEndian(s[..3]) * 256 + s[3];
    }
    assert FromBigEndian(s[..5]) == FromBigEndian(s[..4]) * 256 + s[4];
    assert FromBigEndian(s[..6]) == FromBigEndian(s[..5]) * 256 + s[5];
    assert FromBigEndian(s[..7]) == FromBigEndian(s[..6]) * 256 + s[6];
    assert FromBigEndian(s[..7 + 1]) == FromBigEndian(s[..7]) * 256 + s[7];
  }

  lemma NoDigits()
    ensures FromBigEndian([]) == 0
  {}
}
