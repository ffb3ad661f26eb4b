/** What merging sorted sequences means: the sorted union, the left one winning equal keys. */
module MergeSpec {
  import opened Keys
  import opened SstFormat
  import opened Cursors

  ghost function Merge(reversed: bool, a: seq<Item>, b: seq<Item>): seq<Item>
    decreases |a| + |b|
  {
    if a == [] then b
    else if b == [] then a
    else if a[0].key == b[0].key then [a[0]] + Merge(reversed, a[1..], b[1..])
    else if Ahead(reversed, a[0].key, b[0].key) then [a[0]] + Merge(reversed, a[1..], b)
    else [b[0]] + Merge(reversed, a, b[1..])
  }

  ghost predicate HasKey(items: seq<Item>, key: Key) { exists i :: 0 <= i < |items| && items[i].key == key }

  ghost predicate Below(reversed: bool, key: Key, items: seq<Item>) {
    forall i :: 0 <= i < |items| ==> Ahead(reversed, key, items[i].key)
  }

  lemma SortedTail(reversed: bool, a: seq<Item>)
    requires Sorted(reversed, a) && a != []
    ensures Sorted(reversed, a[1..]) && Below(reversed, a[0].key, a[1..])
  {
    hide Ahead;
  }

  lemma {:induction false} MergeBelow(reversed: bool, key: Key, a: seq<Item>, b: seq<Item>)
    requires Below(reversed, key, a) && Below(reversed, key, b)
    ensures Below(reversed, key, Merge(reversed, a, b))
    decreases |a| + |b|
  {
    hide Ahead;
    if a != [] && b != [] {
      if a[0].key == b[0].key { MergeBelow(reversed, key, a[1..], b[1..]); }
      else if Ahead(reversed, a[0].key, b[0].key) { MergeBelow(reversed, key, a[1..], b); }
      else { MergeBelow(reversed, key, a, b[1..]); }
    }
  }

  lemma BelowTrans(reversed: bool, a: Key, b: Key, items: seq<Item>)
    requires Ahead(reversed, a, b) && Below(reversed, b, items)
    ensures Below(reversed, a, items)
  {
    hide Ahead;
    AheadOrder(reversed);
  }

  lemma SortedCons(reversed: bool, x: Item, items: seq<Item>)
    requires Sorted(reversed, items) && Below(reversed, x.key, items)
    ensures Sorted(reversed, [x] + items)
  {
    hide Ahead;
  }

  /** Merging strictly sorted sequences gives a strictly sorted sequence. */
  lemma {:induction false} MergeSorted(reversed: bool, a: seq<Item>, b: seq<Item>)
    requires Sorted(reversed, a) && Sorted(reversed, b)
    ensures Sorted(reversed, Merge(reversed, a, b))
    decreases |a| + |b|
  {
    hide Ahead, Sorted, Below;
    AheadOrder(reversed);
    if a != [] && b != [] {
      SortedTail(reversed, a);
      SortedTail(reversed, b);
      if a[0].key == b[0].key {
        MergeSorted(reversed, a[1..], b[1..]);
        MergeBelow(reversed, a[0].key, a[1..], b[1..]);
        SortedCons(reversed, a[0], Merge(reversed, a[1..], b[1..]));
      } else if Ahead(reversed, a[0].key, b[0].key) {
        BelowTrans(reversed, a[0].key, b[0].key, b[1..]);
        BelowAll(reversed, a[0].key, b);
        MergeSorted(reversed, a[1..], b);
        MergeBelow(reversed, a[0].key, a[1..], b);
        SortedCons(reversed, a[0], Merge(reversed, a[1..], b));
      } else {
        BelowTrans(reversed, b[0].key, a[0].key, a[1..]);
        BelowAll(reversed, b[0].key, a);
        MergeSorted(reversed, a, b[1..]);
        MergeBelow(reversed, b[0].key, a, b[1..]);
        SortedCons(reversed, b[0], Merge(reversed, a, b[1..]));
      }
    }
  }

  lemma BelowAll(reversed: bool, key: Key, items: seq<Item>)
    requires items != [] && Ahead(reversed, key, items[0].key) && Below(reversed, key, items[1..])
    ensures Below(reversed, key, items)
  {
    hide Ahead;
    forall i | 0 <= i < |items| ensures Ahead(reversed, key, items[i].key) {
      assert i > 0 ==> items[i] == items[1..][i - 1];
    }
  }

  lemma BelowNoKey(reversed: bool, key: Key, items: seq<Item>)
    requires Below(reversed, key, items)
    ensures !HasKey(items, key)
  {
    hide Ahead;
    AheadOrder(reversed);
  }

  /** The merge holds the left items, and the right items whose key the left does not have; nothing else. */
  lemma {:induction false} MergeIsUnion(reversed: bool, a: seq<Item>, b: seq<Item>, x: Item)
    requires Sorted(reversed, a) && Sorted(reversed, b)
    ensures x in Merge(reversed, a, b) <==> x in a || (x in b && !HasKey(a, x.key))
    decreases |a| + |b|
  {
    hide Ahead, Sorted, Below;
    AheadOrder(reversed);
    if a != [] && b != [] {
      SortedTail(reversed, a);
      SortedTail(reversed, b);
      assert a == [a[0]] + a[1..] && b == [b[0]] + b[1..];
      KeyCons(a, x.key);
      BelowNoKey(reversed, b[0].key, b[1..]);
      if a[0].key == b[0].key {
        MergeIsUnion(reversed, a[1..], b[1..], x);
        ItemHasKey(b[1..], x);
      } else if Ahead(reversed, a[0].key, b[0].key) {
        BelowTrans(reversed, a[0].key, b[0].key, b[1..]);
        BelowAll(reversed, a[0].key, b);
        BelowNoKey(reversed, a[0].key, b);
        ItemHasKey(b, x);
        MergeIsUnion(reversed, a[1..], b, x);
      } else {
        BelowTrans(reversed, b[0].key, a[0].key, a[1..]);
        BelowAll(reversed, b[0].key, a);
        BelowNoKey(reversed, b[0].key, a);
        MergeIsUnion(reversed, a, b[1..], x);
      }
    }
  }

  lemma KeyCons(a: seq<Item>, key: Key)
    requires a != []
    ensures HasKey(a, key) <==> a[0].key == key || HasKey(a[1..], key)
  {
    if HasKey(a, key) {
      var i :| 0 <= i < |a| && a[i].key == key;
      assert i > 0 ==> a[1..][i - 1].key == key;
    }
    if HasKey(a[1..], key) {
      var i :| 0 <= i < |a[1..]| && a[1..][i].key == key;
      assert a[i + 1].key == key;
    }
  }

  lemma ItemHasKey(a: seq<Item>, x: Item)
    ensures x in a ==> HasKey(a, x.key)
  {}

  // ------------------------------------------------------------ steps of a merge in progress

  /** Skipping the right copy of a shared head changes nothing. */
  lemma DropRight(reversed: bool, a: seq<Item>, b: seq<Item>)
    requires a != [] && b != [] && a[0].key == b[0].key && Sorted(reversed, b)
    ensures Merge(reversed, a, b) == Merge(reversed, a, b[1..])
  {
    hide Ahead, Sorted;
    AheadOrder(reversed);
    SortedTail(reversed, b);
    if b[1..] == [] {
      assert a == [a[0]] + a[1..];
      if a[1..] == [] { assert Merge(reversed, a[1..], b[1..]) == []; }
    }
  }

  ghost predicate NoneAhead(reversed: bool, items: seq<Item>, key: Key) {
    forall i :: 0 <= i < |items| ==> !Ahead(reversed, items[i].key, key)
  }

  lemma {:induction false} MergeNoneAhead(reversed: bool, a: seq<Item>, b: seq<Item>, key: Key)
    requires NoneAhead(reversed, a, key) && NoneAhead(reversed, b, key)
    ensures NoneAhead(reversed, Merge(reversed, a, b), key)
    decreases |a| + |b|
  {
    hide Ahead;
    if a != [] && b != [] {
      if a[0].key == b[0].key { MergeNoneAhead(reversed, a[1..], b[1..], key); }
      else if Ahead(reversed, a[0].key, b[0].key) { MergeNoneAhead(reversed, a[1..], b, key); }
      else { MergeNoneAhead(reversed, a, b[1..], key); }
    }
  }

  lemma SeekCons(reversed: bool, x: Item, items: seq<Item>, key: Key, p: int)
    requires IsSeek(reversed, items, key, p) && Ahead(reversed, x.key, key)
    ensures IsSeek(reversed, [x] + items, key, p + 1) && ([x] + items)[p + 1..] == items[p..]
  {
    hide Ahead;
  }

  lemma SeekTail(reversed: bool, a: seq<Item>, key: Key, n: int)
    requires IsSeek(reversed, a, key, n) && n > 0
    ensures IsSeek(reversed, a[1..], key, n - 1) && a[1..][n - 1..] == a[n..] && Ahead(reversed, a[0].key, key)
  {
    hide Ahead;
  }

  lemma SeekHead(reversed: bool, a: seq<Item>, key: Key, n: int)
    requires IsSeek(reversed, a, key, n)
    ensures n == 0 ==> NoneAhead(reversed, a, key)
    ensures a != [] ==> (n > 0 <==> Ahead(reversed, a[0].key, key))
    ensures 0 <= n <= |a|
  {
    hide Ahead;
  }

  /** Seeking both sides seeks the merge: what is left of it is the merge of what is left of them. */
  lemma {:induction false} MergeSeek(reversed: bool, a: seq<Item>, b: seq<Item>, key: Key, n: int, m: int) returns (p: int)
    requires Sorted(reversed, a) && Sorted(reversed, b)
    requires IsSeek(reversed, a, key, n) && IsSeek(reversed, b, key, m)
    ensures IsSeek(reversed, Merge(reversed, a, b), key, p)
    ensures 0 <= p <= |Merge(reversed, a, b)| && Merge(reversed, a, b)[p..] == Merge(reversed, a[n..], b[m..])
    decreases |a| + |b|
  {
    hide Ahead, IsSeek, NoneAhead, Sorted, Merge;
    SeekHead(reversed, a, key, n);
    SeekHead(reversed, b, key, m);
    if (n == 0 && m == 0) || a == [] || b == [] {
      p := SeekAtHead(reversed, a, b, key, n, m);
      return;
    }
    TailsSorted(reversed, a, b);
    AheadOrder(reversed);
    Unfold(reversed, a, b);
    if a[0].key == b[0].key {
      SeekTail(reversed, a, key, n);
      SeekTail(reversed, b, key, m);
      p := MergeSeek(reversed, a[1..], b[1..], key, n - 1, m - 1);
      SeekCons(reversed, a[0], Merge(reversed, a[1..], b[1..]), key, p);
    } else if Ahead(reversed, a[0].key, b[0].key) {
      SeekTail(reversed, a, key, n);
      p := MergeSeek(reversed, a[1..], b, key, n - 1, m);
      SeekCons(reversed, a[0], Merge(reversed, a[1..], b), key, p);
    } else {
      SeekTail(reversed, b, key, m);
      p := MergeSeek(reversed, a, b[1..], key, n, m - 1);
      SeekCons(reversed, b[0], Merge(reversed, a, b[1..]), key, p);
    }
    p := p + 1;
  }

  lemma Unfold(reversed: bool, a: seq<Item>, b: seq<Item>)
    requires a != [] && b != []
    ensures Merge(reversed, a, b) ==
            if a[0].key == b[0].key then [a[0]] + Merge(reversed, a[1..], b[1..])
            else if Ahead(reversed, a[0].key, b[0].key) then [a[0]] + Merge(reversed, a[1..], b)
            else [b[0]] + Merge(reversed, a, b[1..])
  {}

  lemma SeekAtHead(reversed: bool, a: seq<Item>, b: seq<Item>, key: Key, n: int, m: int) returns (p: int)
    requires IsSeek(reversed, a, key, n) && IsSeek(reversed, b, key, m)
    requires (n == 0 && m == 0) || a == [] || b == []
    ensures IsSeek(reversed, Merge(reversed, a, b), key, p)
    ensures 0 <= p <= |Merge(reversed, a, b)| && Merge(reversed, a, b)[p..] == Merge(reversed, a[n..], b[m..])
  {
    hide Ahead;
    if n == 0 && m == 0 {
      MergeNoneAhead(reversed, a, b, key);
      assert a[0..] == a && b[0..] == b;
      return 0;
    }
    return if a == [] then m else n;
  }

  lemma TailsSorted(reversed: bool, a: seq<Item>, b: seq<Item>)
    requires Sorted(reversed, a) && Sorted(reversed, b) && a != [] && b != []
    ensures Sorted(reversed, a[1..]) && Sorted(reversed, b[1..])
  {
    SortedTail(reversed, a);
    SortedTail(reversed, b);
  }

  // ------------------------------------------------------------ a tree of merges

  /** `from_iterators` splits the list in half, so earlier iterators end up to the left. */
  ghost function MergeAll(reversed: bool, seqs: seq<seq<Item>>): seq<Item>
    requires seqs != []
  {
    if |seqs| == 1 then seqs[0]
    else
      var mid := |seqs| / 2;
      Merge(reversed, MergeAll(reversed, seqs[..mid]), MergeAll(reversed, seqs[mid..]))
  }

  lemma {:induction false} MergeAllSorted(reversed: bool, seqs: seq<seq<Item>>)
    requires seqs != [] && forall s :: s in seqs ==> Sorted(reversed, s)
    ensures Sorted(reversed, MergeAll(reversed, seqs))
  {
    if |seqs| > 1 {
      var mid := |seqs| / 2;
      MergeAllSorted(reversed, seqs[..mid]);
      MergeAllSorted(reversed, seqs[mid..]);
      MergeSorted(reversed, MergeAll(reversed, seqs[..mid]), MergeAll(reversed, seqs[mid..]));
    }
  }

  /** x comes from the i-th iterator and no earlier one has its key. */
  ghost predicate FirstHolder(seqs: seq<seq<Item>>, i: int, x: Item) {
    0 <= i < |seqs| && x in seqs[i] && forall j :: 0 <= j < i ==> !HasKey(seqs[j], x.key)
  }

  ghost predicate SomeHasKey(seqs: seq<seq<Item>>, key: Key) { exists i :: 0 <= i < |seqs| && HasKey(seqs[i], key) }

  lemma MergeHasKey(reversed: bool, a: seq<Item>, b: seq<Item>, key: Key)
    requires Sorted(reversed, a) && Sorted(reversed, b)
    ensures HasKey(Merge(reversed, a, b), key) <==> HasKey(a, key) || HasKey(b, key)
  {
    hide Ahead, Merge;
    var m := Merge(reversed, a, b);
    if HasKey(m, key) {
      var i :| 0 <= i < |m| && m[i].key == key;
      MergeIsUnion(reversed, a, b, m[i]);
    }
    if HasKey(a, key) {
      var i :| 0 <= i < |a| && a[i].key == key;
      MergeIsUnion(reversed, a, b, a[i]);
    } else if HasKey(b, key) {
      var i :| 0 <= i < |b| && b[i].key == key;
      MergeIsUnion(reversed, a, b, b[i]);
    }
  }

  lemma SomeSplit(seqs: seq<seq<Item>>, mid: nat, key: Key)
    requires mid <= |seqs|
    ensures SomeHasKey(seqs, key) <==> SomeHasKey(seqs[..mid], key) || SomeHasKey(seqs[mid..], key)
  {
    hide HasKey;
    if SomeHasKey(seqs, key) {
      var i :| 0 <= i < |seqs| && HasKey(seqs[i], key);
      if i < mid { assert seqs[..mid][i] == seqs[i]; } else { assert seqs[mid..][i - mid] == seqs[i]; }
    }
    if SomeHasKey(seqs[mid..], key) {
      var i :| 0 <= i < |seqs[mid..]| && HasKey(seqs[mid..][i], key);
      assert seqs[mid + i] == seqs[mid..][i];
    }
  }

  lemma {:induction false} MergeAllHasKey(reversed: bool, seqs: seq<seq<Item>>, key: Key)
    requires seqs != [] && forall s :: s in seqs ==> Sorted(reversed, s)
    ensures HasKey(MergeAll(reversed, seqs), key) <==> SomeHasKey(seqs, key)
  {
    hide HasKey, Merge, Ahead;
    if |seqs| > 1 {
      var mid := |seqs| / 2;
      MergeAllHasKey(reversed, seqs[..mid], key);
      MergeAllHasKey(reversed, seqs[mid..], key);
      MergeAllSorted(reversed, seqs[..mid]);
      MergeAllSorted(reversed, seqs[mid..]);
      MergeHasKey(reversed, MergeAll(reversed, seqs[..mid]), MergeAll(reversed, seqs[mid..]), key);
      SomeSplit(seqs, mid, key);
    }
  }

  /** A merge tree over any list of iterators enumerates exactly the items whose key no earlier iterator has. */
  lemma {:induction false} MergeAllIsUnion(reversed: bool, seqs: seq<seq<Item>>, x: Item)
    requires seqs != [] && forall s :: s in seqs ==> Sorted(reversed, s)
    ensures x in MergeAll(reversed, seqs) <==> exists i :: FirstHolder(seqs, i, x)
  {
    hide HasKey, Merge, Ahead, Sorted;
    if |seqs| == 1 {
      assert x in seqs[0] ==> FirstHolder(seqs, 0, x);
    } else {
      var mid := |seqs| / 2;
      var l, r := seqs[..mid], seqs[mid..];
      MergeAllIsUnion(reversed, l, x);
      MergeAllIsUnion(reversed, r, x);
      MergeAllSorted(reversed, l);
      MergeAllSorted(reversed, r);
      MergeIsUnion(reversed, MergeAll(reversed, l), MergeAll(reversed, r), x);
      MergeAllHasKey(reversed, l, x.key);
      HolderSplit(seqs, mid, x);
    }
  }

  lemma HolderSplit(seqs: seq<seq<Item>>, mid: nat, x: Item)
    requires mid <= |seqs|
    ensures (exists i :: FirstHolder(seqs, i, x)) <==>
              (exists i :: FirstHolder(seqs[..mid], i, x)) || ((exists i :: FirstHolder(seqs[mid..], i, x)) && !SomeHasKey(seqs[..mid], x.key))
  {
    hide HasKey;
    var l, r := seqs[..mid], seqs[mid..];
    forall i | FirstHolder(seqs, i, x) ensures FirstHolder(l, i, x) || (FirstHolder(r, i - mid, x) && !SomeHasKey(l, x.key)) {
      forall j | 0 <= j < i - mid ensures r[j] == seqs[mid + j] {}
    }
    forall i | FirstHolder(l, i, x) ensures FirstHolder(seqs, i, x) {}
    forall i | FirstHolder(r, i, x) && !SomeHasKey(l, x.key) ensures FirstHolder(seqs, mid + i, x) {
      assert seqs[mid + i] == r[i];
      forall j | 0 <= j < mid + i ensures !HasKey(seqs[j], x.key) {
        if j < mid { assert l[j] == seqs[j]; } else { assert r[j - mid] == seqs[j]; }
      }
    }
  }
}
