/** `KeyRange` and `get_key_range` of src/levels/compaction.rs. */
module KeyRanges {
  import opened Wrappers
  import opened Bytes
  import opened Keys

  datatype KeyRange = Range(left: Key, right: Key) | Inf | Empty

  /** `KeyRange::new` asserts left <= right. */
  predicate Proper(r: KeyRange) { r.Range? ==> !Before(r.right, r.left) }

  predicate Contains(r: KeyRange, k: Key) {
    match r
    case Range(left, right) => !Before(k, left) && !Before(right, k)
    case Inf => true
    case Empty => false
  }

  ghost predicate Covers(a: KeyRange, b: KeyRange) { forall k: Key :: Contains(b, k) ==> Contains(a, k) }

  function Extend(a: KeyRange, b: KeyRange): KeyRange {
    match (a, b)
    case (_, Empty) => a
    case (Empty, _) => b
    case (Inf, _) => Inf
    case (_, Inf) => Inf
    case (Range(al, ar), Range(bl, br)) =>
      Range(if Before(bl, al) then bl else al, if Before(ar, br) then br else ar)
  }

  predicate Overlaps(a: KeyRange, b: KeyRange) {
    match (a, b)
    case (Empty, _) => true
    case (_, Empty) => false
    case (Inf, _) => true
    case (_, Inf) => true
    case (Range(al, ar), Range(bl, br)) =>
      if Before(br, al) then false else if Before(ar, bl) then false else true
  }

  /** `extend` gives the least range that covers both. */
  lemma ExtendIsLeast(a: KeyRange, b: KeyRange, c: KeyRange)
    requires Proper(a) && Proper(b)
    ensures Proper(Extend(a, b)) && Covers(Extend(a, b), a) && Covers(Extend(a, b), b)
    ensures Covers(c, a) && Covers(c, b) ==> Covers(c, Extend(a, b))
  {
    hide Before;
    KeyOrder();
    CoversWhen(c, a);
    CoversWhen(c, b);
    CoversWhen(c, Extend(a, b));
  }

  lemma CoversWhen(c: KeyRange, r: KeyRange)
    requires Proper(r)
    ensures Covers(c, r) <==>
      r.Empty? || c.Inf? || (r.Range? && c.Range? && !Before(r.left, c.left) && !Before(c.right, r.right))
  {
    hide Before;
    KeyOrder();
    if r.Range? {
      assert Contains(r, r.left) && Contains(r, r.right);
    } else if r.Inf? && c.Range? {
      NotEverything(c);
    } else if r.Inf? && c.Empty? {
      assert Contains(r, Zeroed(TS_LEN)) && !Contains(c, Zeroed(TS_LEN));
    }
  }

  /** No bounded range holds every key: there is always one past its right end. */
  lemma NotEverything(c: KeyRange)
    requires c.Range?
    ensures exists k: Key :: !Contains(c, k)
  {
    var k: Key := UserKey(c.right) + [0] + Suffix(c.right);
    assert UserKey(k) == UserKey(c.right) + [0];
    PrefixLess(UserKey(c.right));
    assert !Contains(c, k);
  }

  lemma {:induction false} PrefixLess(a: Bytes)
    ensures LexLess(a, a + [0])
  {
    if a != [] {
      PrefixLess(a[1..]);
      assert (a + [0])[1..] == a[1..] + [0];
    }
  }

  lemma ExtendCommutes(a: KeyRange, b: KeyRange)
    ensures Extend(a, b) == Extend(b, a)
  {
    hide Before;
    KeyOrder();
  }

  lemma ExtendAssociates(a: KeyRange, b: KeyRange, c: KeyRange)
    ensures Extend(Extend(a, b), c) == Extend(a, Extend(b, c))
  {
    hide Before;
    KeyOrder();
  }

  /** `overlaps_with` says whether some key lies in both ranges; asked of an Empty range it always says yes. */
  lemma OverlapsIsCommonKey(a: KeyRange, b: KeyRange)
    requires Proper(a) && Proper(b)
    ensures Overlaps(a, b) <==> a.Empty? || exists k: Key :: Contains(a, k) && Contains(b, k)
    ensures !a.Empty? && !b.Empty? ==> Overlaps(a, b) == Overlaps(b, a)
  {
    KeyOrder();
    hide Before;
    if !a.Empty? && !b.Empty? && Overlaps(a, b) {
      var k: Key :=
        if a.Range? then (if b.Range? && Before(a.left, b.left) then b.left else a.left)
        else if b.Range? then b.left else Zeroed(TS_LEN);
      assert Contains(a, k) && Contains(b, k);
    }
  }

  // ------------------------------------------------------------ get_key_range

  datatype TableKeys = TableKeys(id: nat, smallest: Key, biggest: Key)

  function UserRange(smallest: Bytes, biggest: Bytes): KeyRange {
    Range(KeyWithTs(smallest, U64 - 1), KeyWithTs(biggest, 0))
  }

  predicate Extremes(tables: seq<TableKeys>, s: TableKeys, b: TableKeys) {
    && s in tables
    && b in tables
    && forall t :: t in tables ==> !Before(t.smallest, s.smallest) && !Before(b.biggest, t.biggest)
  }

  /** `get_key_range`: the range between the extreme user keys of the tables. */
  method GetKeyRange(tables: seq<TableKeys>) returns (r: Option<KeyRange>)
    requires forall t :: t in tables ==> !Before(t.biggest, t.smallest)
    ensures r.None? <==> tables == []
    ensures r.Some? ==> Proper(r.value)
    ensures r.Some? ==> exists s, b :: Extremes(tables, s, b) && r.value == UserRange(UserKey(s.smallest), UserKey(b.biggest))
  {
    hide Before;
    if tables == [] { return None; }
    var s, b := tables[0], tables[0];
    BeforeIrreflexive(s.smallest);
    BeforeIrreflexive(b.biggest);
    for i := 1 to |tables|
      invariant s in tables && b in tables
      invariant NoneSmaller(tables, i, s.smallest) && NoneBigger(tables, i, b.biggest)
    {
      StillExtreme(tables, i, s.smallest, b.biggest);
      if Before(tables[i].smallest, s.smallest) { s := tables[i]; }
      if Before(b.biggest, tables[i].biggest) { b := tables[i]; }
    }
    assert Extremes(tables, s, b);
    NotBefore(b.biggest, s.biggest, s.smallest);
    UserRangeProper(s.smallest, b.biggest);
    r := Some(UserRange(UserKey(s.smallest), UserKey(b.biggest)));
  }

  predicate NoneSmaller(tables: seq<TableKeys>, n: nat, key: Key)
    requires n <= |tables|
  {
    forall j :: 0 <= j < n ==> !Before(tables[j].smallest, key)
  }

  predicate NoneBigger(tables: seq<TableKeys>, n: nat, key: Key)
    requires n <= |tables|
  {
    forall j :: 0 <= j < n ==> !Before(key, tables[j].biggest)
  }

  /** "Not before" is transitive. */
  lemma NotBefore(a: Key, b: Key, c: Key)
    requires !Before(a, b) && !Before(b, c)
    ensures !Before(a, c)
  {
    if Before(a, c) {
      BeforeTotal(a, b);
      if a != b { BeforeTransitive(b, a, c); }
    }
  }

  lemma StillExtreme(tables: seq<TableKeys>, i: nat, s: Key, b: Key)
    requires i < |tables| && NoneSmaller(tables, i, s) && NoneBigger(tables, i, b)
    ensures NoneSmaller(tables, i + 1, if Before(tables[i].smallest, s) then tables[i].smallest else s)
    ensures NoneBigger(tables, i + 1, if Before(b, tables[i].biggest) then tables[i].biggest else b)
  {
    hide Before;
    var t := tables[i];
    BeforeIrreflexive(t.smallest);
    BeforeIrreflexive(t.biggest);
    forall j | 0 <= j < i && Before(t.smallest, s) ensures !Before(tables[j].smallest, t.smallest) {
      if Before(tables[j].smallest, t.smallest) { BeforeTransitive(tables[j].smallest, t.smallest, s); }
    }
    forall j | 0 <= j < i && Before(b, t.biggest) ensures !Before(t.biggest, tables[j].biggest) {
      if Before(t.biggest, tables[j].biggest) { BeforeTransitive(b, t.biggest, tables[j].biggest); }
    }
  }

  lemma UserRangeProper(s: Key, b: Key)
    requires !Before(b, s)
    ensures Proper(UserRange(UserKey(s), UserKey(b)))
  {
    var l, r := KeyWithTs(UserKey(s), U64 - 1), KeyWithTs(UserKey(b), 0);
    KeyParts(UserKey(s), U64 - 1);
    KeyParts(UserKey(b), 0);
    VersionOrder(r, l);
  }

  /** Such a range holds exactly the versions of the user keys between its ends. */
  lemma UserRangeContains(s: Bytes, b: Bytes, k: Key)
    ensures Contains(UserRange(s, b), k) <==> !LexLess(UserKey(k), s) && !LexLess(b, UserKey(k))
  {
    KeyParts(s, U64 - 1);
    KeyParts(b, 0);
    KeyFromParts(k);
    VersionOrder(k, KeyWithTs(s, U64 - 1));
    VersionOrder(KeyWithTs(b, 0), k);
  }

  /** So the range found for some tables holds every key of every one of them. */
  lemma UserRangeHoldsTables(tables: seq<TableKeys>, s: TableKeys, b: TableKeys, t: TableKeys, k: Key)
    requires Extremes(tables, s, b) && t in tables && !Before(k, t.smallest) && !Before(t.biggest, k)
    ensures Contains(UserRange(UserKey(s.smallest), UserKey(b.biggest)), k)
  {
    KeyOrder();
    UserRangeContains(UserKey(s.smallest), UserKey(b.biggest), k);
    assert !Before(k, s.smallest) && !Before(b.biggest, k);
    VersionOrder(k, s.smallest);
    VersionOrder(b.biggest, k);
  }

  /** Two such ranges overlap exactly when their user-key intervals meet. */
  lemma UserRangesOverlap(s1: Bytes, b1: Bytes, s2: Bytes, b2: Bytes)
    ensures Overlaps(UserRange(s1, b1), UserRange(s2, b2)) <==> !LexLess(b2, s1) && !LexLess(b1, s2)
  {
    KeyParts(s1, U64 - 1);
    KeyParts(b1, 0);
    KeyParts(s2, U64 - 1);
    KeyParts(b2, 0);
    VersionOrder(KeyWithTs(b2, 0), KeyWithTs(s1, U64 - 1));
    VersionOrder(KeyWithTs(b1, 0), KeyWithTs(s2, U64 - 1));
  }
}
