/** `ConcatIterator` of src/table/concat_iterator.rs: tables laid end to end, opened on first use. */
module ConcatIterators {
  import opened Wrappers
  import opened Bytes
  import opened Keys
  import opened SstFormat
  import opened SstTable
  import opened Cursors
  import opened BlockIterators
  import opened TableIterators
  import opened Util

  /** One opened table and what it holds. */
  ghost predicate Opened(t: Table, blocks: seq<seq<Item>>) {
    && Holds(t, blocks) && |blocks| < USIZE_MAX && Sorted(false, Flatten(blocks)) && Flatten(blocks) != []
    && t.smallest == Flatten(blocks)[0].key && t.biggest == Flatten(blocks)[|Flatten(blocks)| - 1].key
  }

  ghost function Flats(contents: seq<seq<seq<Item>>>): (fs: seq<seq<Item>>)
    ensures |fs| == |contents|
  {
    seq(|contents|, i requires 0 <= i < |contents| => Flatten(contents[i]))
  }

  /** Sorted tables with disjoint keys, as the constructor's comment asks. */
  ghost predicate TablesOk(tables: seq<Table>, contents: seq<seq<seq<Item>>>) {
    && |tables| == |contents|
    && (forall i :: 0 <= i < |tables| ==> Opened(tables[i], contents[i]))
    && Sorted(false, Flatten(Flats(contents)))
  }

  class ConcatIterator {
    const tables: seq<Table>
    const reversed: bool
    var cur: Option<nat>
    var iters: seq<TableIterator?>

    ghost const contents: seq<seq<seq<Item>>>
    /** Steps taken in the direction of travel. */
    ghost var pos: int
    ghost var repr: set<object>

    ghost function Items(): seq<Item> { Directed(reversed, Flatten(Flats(contents))) }

    /** The i-th child, if it has been created, iterates the i-th table in this iterator's direction. */
    ghost predicate ChildOk(i: int)
      requires 0 <= i < |iters| && |iters| == |tables| == |contents|
      reads this, repr
    {
      iters[i] != null ==>
        var it := iters[i];
        && it in repr && (it.bi != null ==> it.bi in repr) && it as object != this
        && it.Valid() && it.table == tables[i] && it.reversed == reversed && it.blocks == contents[i]
    }

    ghost predicate Valid()
      reads this, repr
    {
      && this in repr && |iters| == |tables| == |contents| && TablesOk(tables, contents)
      && (forall i :: 0 <= i < |iters| ==> ChildOk(i))
      && (forall i, j :: 0 <= i < j < |iters| && ChildOk(i) && ChildOk(j) && iters[i] != null && iters[j] != null ==>
            iters[i] != iters[j] && (iters[i].bi != null ==> iters[i].bi != iters[j].bi))
    }

    /** Where the flat sequence of table c starts, in the direction of travel. */
    ghost function StartsAt(c: int): int
      requires 0 <= c < |contents|
    {
      StartOf(reversed, Flats(contents), c)
    }

    /** The current child stands on an entry, `pos` steps from the start. */
    ghost predicate OnChild(c: int)
      requires 0 <= c < |iters| && |iters| == |tables| == |contents| && ChildOk(c)
      reads this, repr
    {
      && iters[c] != null && iters[c].Ready() && iters[c].Pos() < |iters[c].Items()|
      && pos == StartsAt(c) + iters[c].Pos()
    }

    /** On an entry of the current child, or at the end with no current child. */
    ghost predicate Ready()
      reads this, repr
    {
      && Valid() && 0 <= pos <= |Items()|
      && (cur == None <==> pos == |Items()|)
      && (cur.Some? ==> cur.value < |iters| && ChildOk(cur.value) && OnChild(cur.value))
    }

    constructor (tables: seq<Table>, reversed: bool, ghost contents: seq<seq<seq<Item>>>)
      requires TablesOk(tables, contents)
      ensures Valid() && fresh(repr)
      ensures this.tables == tables && this.reversed == reversed && this.contents == contents && cur == None
    {
      this.tables, this.reversed, this.contents := tables, reversed, contents;
      cur, iters, pos := None, seq(|tables|, _ => null), -1;
      repr := {this};
    }

    /** `set_idx`: make child idx current, creating it on first use. */
    method SetIdx(idx: nat)
      requires Valid()
      modifies this
      ensures Valid() && pos == old(pos) && fresh(repr - old(repr)) && repr >= old(repr)
      ensures if idx < |tables| then cur == Some(idx) && iters[idx] != null else cur == None
      ensures forall i :: 0 <= i < |iters| && i != idx ==> iters[i] == old(iters[i])
    {
      hide Holds, TableIterator.Valid, Sorted, Flatten;
      if idx >= |iters| {
        cur := None;
        forall i | 0 <= i < |iters| ensures ChildOk(i) { assert old(ChildOk(i)); }
        return;
      }
      if iters[idx] == null {
        assert Opened(tables[idx], contents[idx]);
        var it := new TableIterator(tables[idx], reversed, contents[idx]);
        iters := iters[idx := it];
        repr := repr + {it};
      }
      cur := Some(idx);
      forall i | 0 <= i < |iters| ensures ChildOk(i) { assert old(ChildOk(i)); }
    }

    /** Moving one child leaves the others alone. */
    twostate lemma ChildMoved(c: int)
      requires old(Valid()) && iters == old(iters) && 0 <= c < |iters| && iters[c] != null
      requires repr == old(repr) + (if iters[c].bi == null then {} else {iters[c].bi})
      requires iters[c].Valid() && (iters[c].bi == old(iters[c].bi) || fresh(iters[c].bi))
      requires forall o: object :: o in old(repr) && o != this && o != iters[c] && o != old(iters[c].bi) ==> unchanged(o)
      ensures Valid() && ChildOk(c)
    {
      hide Opened, TableIterator.Valid, Sorted, Flatten, TablesOk;
      forall i | 0 <= i < |iters| ensures ChildOk(i) {
        assert old(ChildOk(i)) && old(ChildOk(c));
      }
    }

    /** `rewind` of the child that a move between tables has just selected. */
    method RewindChild()
      requires Valid() && cur.Some? && cur.value < |iters| && iters[cur.value] != null
      modifies repr
      ensures Ready() && cur == old(cur) && pos == StartsAt(cur.value) && fresh(repr - old(repr))
    {
      hide Opened, TableIterator.Valid, TableIterator.Placed, Sorted, Flatten, TablesOk;
      var it := iters[cur.value];
      assert ChildOk(cur.value);
      it.Rewind();
      repr := repr + if it.bi == null then {} else {it.bi};
      pos := StartsAt(cur.value);
      ChildMoved(cur.value);
      ChildSpan(cur.value);
    }

    /** A child covers its own stretch of the whole sequence. */
    lemma ChildSpan(c: int)
      requires Valid() && 0 <= c < |iters| && iters[c] != null && ChildOk(c)
      ensures 0 <= StartsAt(c) < StartsAt(c) + |iters[c].Items()| <= |Items()|
      ensures forall k :: 0 <= k < |iters[c].Items()| ==> Items()[StartsAt(c) + k] == iters[c].Items()[k]
      ensures if (if reversed then c == 0 else c + 1 == |iters|) then StartsAt(c) + |iters[c].Items()| == |Items()|
              else StartsAt(c) + |iters[c].Items()| == StartsAt(if reversed then c - 1 else c + 1)
      ensures StartsAt(if reversed then |iters| - 1 else 0) == 0
    {
      hide Sorted, Flatten, TableIterator.Valid, Opened, TablesOk, StartOf;
      NotEmpty(tables, contents, c);
      Spans(reversed, Flats(contents), c);
    }

    /** `next` when the current child has run out: the neighbouring table in the direction of travel. The
        source's loop does not advance `cur`; opened tables are never empty, so it leaves on its first turn. */
    method NextTable(c: nat)
      requires Valid() && cur == Some(c) && c < |iters| && iters[c] != null && ChildOk(c)
      requires pos == StartsAt(c) + |iters[c].Items()|
      modifies repr
      ensures Ready() && pos == old(pos) && fresh(repr - old(repr))
    {
      hide Opened, TableIterator.Valid, Sorted, Flatten, TablesOk;
      ChildSpan(c);
      if !reversed {
        SetIdx(c + 1);
      } else if c == 0 {
        cur := None;
        ChildrenKept();
      } else {
        SetIdx(c - 1);
      }
      if cur.Some? { RewindChild(); }
    }

    /** Changing only this object's own bookkeeping keeps the children. */
    twostate lemma ChildrenKept()
      requires old(Valid()) && iters == old(iters) && repr == old(repr)
      requires forall o: object :: o in old(repr) && o != this ==> unchanged(o)
      ensures Valid()
    {
      hide Opened, TableIterator.Valid, Sorted, Flatten, TablesOk;
      forall i | 0 <= i < |iters| ensures ChildOk(i) { assert old(ChildOk(i)); }
    }

    method Next()
      requires Ready() && pos < |Items()|
      modifies repr
      ensures Ready() && pos == old(pos) + 1 && fresh(repr - old(repr))
    {
      hide Opened, TableIterator.Valid, TableIterator.Placed, Sorted, Flatten, TablesOk;
      var c := cur.value;
      var it := iters[c];
      ChildSpan(c);
      it.Next();
      repr := repr + if it.bi == null then {} else {it.bi};
      pos := pos + 1;
      ChildMoved(c);
      ChildSpan(c);
      if it.HasEntry() { return; }
      NextTable(c);
    }

    method Rewind()
      requires Valid()
      modifies repr
      ensures Ready() && pos == 0 && fresh(repr - old(repr))
    {
      hide Opened, TableIterator.Valid, Sorted, Flatten, TablesOk;
      if |iters| == 0 {
        NothingToVisit();
        cur := None;
        pos := 0;
        ChildrenKept();
        return;
      }
      if !reversed { SetIdx(0); } else { SetIdx(|iters| - 1); }
      assert ChildOk(cur.value);
      ChildSpan(cur.value);
      RewindChild();
    }

    /** `seek`: pick the table that decides, then seek inside it. */
    method Seek(target: Key)
      requires Valid()
      modifies repr
      ensures Ready() && IsSeek(reversed, Items(), target, pos) && fresh(repr - old(repr))
    {
      hide Opened, TableIterator.Valid, TableIterator.Placed, Sorted, Flatten, TablesOk, IsSeek, Decides, Before;
      var n := |tables|;
      DecidesMonotone(tables, contents, reversed, target);
      var r := Search(n, Decides(tables, reversed, target));
      assert r > 0 ==> !Decides(tables, reversed, target)(r - 1);
      if r >= n {
        cur := None;
        pos := |Items()|;
        ChildrenKept();
        SeekBeyond(tables, contents, reversed, target);
        return;
      }
      assert Decides(tables, reversed, target)(r);
      var c := if reversed then n - 1 - r else r;
      SetIdx(c);
      ghost var was := repr;
      SeekChild(c, target);
      SeekWithin(tables, contents, reversed, target, r, iters[c].Pos());
      ChildSpan(c);
    }

    /** The seek inside the chosen child. */
    method SeekChild(c: nat, target: Key)
      requires Valid() && cur == Some(c) && c < |iters| && iters[c] != null
      modifies repr
      ensures Valid() && cur == old(cur) && iters == old(iters) && iters[c] != null && ChildOk(c) && fresh(repr - old(repr))
      ensures iters[c].Ready() && IsSeek(reversed, iters[c].Items(), target, iters[c].Pos())
      ensures pos == StartsAt(c) + iters[c].Pos()
    {
      hide Opened, TableIterator.Valid, TableIterator.Placed, Sorted, Flatten, TablesOk, IsSeek;
      var it := iters[c];
      assert ChildOk(c);
      it.Seek(target);
      repr := repr + if it.bi == null then {} else {it.bi};
      pos := StartsAt(c) + it.Pos();
      ChildMoved(c);
    }

    predicate HasEntry()
      reads this, iters
    {
      cur.Some? && cur.value < |iters| && iters[cur.value] != null && iters[cur.value].HasEntry()
    }

    lemma ReadyFacts()
      requires Ready()
      ensures HasEntry() <==> pos < |Items()|
      ensures pos < |Items()| ==> Items()[pos] == iters[cur.value].Items()[iters[cur.value].Pos()]
    {
      hide Opened, TableIterator.Valid, Sorted, Flatten, TablesOk, TableIterator.Placed;
      if cur.Some? {
        iters[cur.value].ReadyFacts();
        ChildSpan(cur.value);
      }
    }

    method Key() returns (key: Bytes)
      requires Ready() && pos < |Items()|
      ensures key == Items()[pos].key
    {
      hide TableIterator.Valid, Flatten, TablesOk, TableIterator.Placed;
      ReadyFacts();
      key := iters[cur.value].Key();
    }

    method Val() returns (val: Bytes)
      requires Ready() && pos < |Items()|
      ensures val == Items()[pos].value
    {
      hide TableIterator.Valid, Flatten, TablesOk, TableIterator.Placed;
      ReadyFacts();
      val := iters[cur.value].Val();
    }

    lemma NothingToVisit()
      requires Valid() && |iters| == 0
      ensures |Items()| == 0
    {}
  }

  lemma NotEmpty(tables: seq<Table>, contents: seq<seq<seq<Item>>>, c: int)
    requires TablesOk(tables, contents) && 0 <= c < |contents|
    ensures Flatten(contents[c]) != []
  {
    hide Sorted, Flatten, Holds;
    assert Opened(tables[c], contents[c]);
  }

  /** Where part c of a sequence in parts starts, in the direction of travel. */
  ghost function StartOf(reversed: bool, fs: seq<seq<Item>>, c: int): int
    requires 0 <= c < |fs|
  {
    if reversed then |Flatten(fs)| - Start(fs, c + 1) else Start(fs, c)
  }

  lemma SpanItem(reversed: bool, fs: seq<seq<Item>>, c: int, k: int)
    requires 0 <= c < |fs| && 0 <= k < |fs[c]|
    ensures 0 <= StartOf(reversed, fs, c) + k < |Flatten(fs)|
    ensures Directed(reversed, Flatten(fs))[StartOf(reversed, fs, c) + k] == Directed(reversed, fs[c])[k]
  {
    hide Flatten, Start, Directed;
    FlatAt(fs, c, if reversed then |fs[c]| - 1 - k else k);
    FlatSizes(fs, c);
    DirectedAt(reversed, fs[c], k);
    DirectedAt(reversed, Flatten(fs), StartOf(reversed, fs, c) + k);
  }

  lemma DirectedAt(reversed: bool, items: seq<Item>, k: int)
    requires 0 <= k < |items|
    ensures |Directed(reversed, items)| == |items|
    ensures Directed(reversed, items)[k] == items[if reversed then |items| - 1 - k else k]
  {}

  lemma SpanSizes(reversed: bool, fs: seq<seq<Item>>, c: int)
    requires 0 <= c < |fs|
    ensures |Directed(reversed, Flatten(fs))| == |Flatten(fs)|
    ensures 0 <= StartOf(reversed, fs, c) <= StartOf(reversed, fs, c) + |fs[c]| <= |Flatten(fs)|
    ensures if (if reversed then c == 0 else c + 1 == |fs|) then StartOf(reversed, fs, c) + |fs[c]| == |Flatten(fs)|
            else StartOf(reversed, fs, c) + |fs[c]| == StartOf(reversed, fs, if reversed then c - 1 else c + 1)
    ensures StartOf(reversed, fs, if reversed then |fs| - 1 else 0) == 0
  {
    hide Flatten, Start;
    FlatSizes(fs, c);
    StartEnds(fs);
  }

  lemma Spans(reversed: bool, fs: seq<seq<Item>>, c: int)
    requires 0 <= c < |fs|
    ensures |Directed(reversed, Flatten(fs))| == |Flatten(fs)|
    ensures 0 <= StartOf(reversed, fs, c) <= StartOf(reversed, fs, c) + |fs[c]| <= |Flatten(fs)|
    ensures forall k :: 0 <= k < |fs[c]| ==> Directed(reversed, Flatten(fs))[StartOf(reversed, fs, c) + k] == Directed(reversed, fs[c])[k]
    ensures if (if reversed then c == 0 else c + 1 == |fs|) then StartOf(reversed, fs, c) + |fs[c]| == |Flatten(fs)|
            else StartOf(reversed, fs, c) + |fs[c]| == StartOf(reversed, fs, if reversed then c - 1 else c + 1)
    ensures StartOf(reversed, fs, if reversed then |fs| - 1 else 0) == 0
  {
    hide Flatten, Start, StartOf;
    SpanSizes(reversed, fs, c);
    forall k | 0 <= k < |fs[c]| ensures Directed(reversed, Flatten(fs))[StartOf(reversed, fs, c) + k] == Directed(reversed, fs[c])[k] {
      SpanItem(reversed, fs, c, k);
    }
  }

  /** The search predicate of `seek`: the r-th table in the direction of travel reaches the target. */
  function Decides(tables: seq<Table>, reversed: bool, target: Key): nat -> bool {
    (r: nat) =>
      r < |tables|
      && var edge := if reversed then tables[|tables| - 1 - r].smallest else tables[r].biggest;
         |edge| >= TS_LEN && if reversed then !Before(target, edge) else !Before(edge, target)
  }

  /** The last key of part c, in the direction of travel. */
  ghost function LastKey(reversed: bool, contents: seq<seq<seq<Item>>>, c: int): Key
    requires 0 <= c < |contents| && Flatten(contents[c]) != []
  {
    var d := Directed(reversed, Flatten(contents[c]));
    d[|d| - 1].key
  }

  lemma DecidesIs(tables: seq<Table>, contents: seq<seq<seq<Item>>>, reversed: bool, target: Key, r: nat)
    requires TablesOk(tables, contents) && r < |tables|
    ensures var c := if reversed then |tables| - 1 - r else r;
            Flatten(contents[c]) != [] && (Decides(tables, reversed, target)(r) <==> !Ahead(reversed, LastKey(reversed, contents, c), target))
  {
    hide Holds, Flatten, Sorted, Before;
    var c := if reversed then |tables| - 1 - r else r;
    assert Opened(tables[c], contents[c]);
  }

  lemma DirectedSorted(reversed: bool, items: seq<Item>)
    requires Sorted(false, items)
    ensures Sorted(reversed, Directed(reversed, items))
  {
    hide Before;
    if reversed {
      forall i, j | 0 <= i < j < |items| ensures Ahead(true, Reverse(items)[i].key, Reverse(items)[j].key) {
        assert Ahead(false, items[|items| - 1 - j].key, items[|items| - 1 - i].key);
      }
    }
  }

  /** The last entry of part c, as an entry of the whole sequence. */
  lemma LastOfPart(tables: seq<Table>, contents: seq<seq<seq<Item>>>, reversed: bool, c: int)
    requires TablesOk(tables, contents) && 0 <= c < |tables|
    ensures var fs := Flats(contents);
            && Flatten(contents[c]) != []
            && 0 < StartOf(reversed, fs, c) + |fs[c]| <= |Directed(reversed, Flatten(fs))|
            && Directed(reversed, Flatten(fs))[StartOf(reversed, fs, c) + |fs[c]| - 1].key == LastKey(reversed, contents, c)
  {
    hide Holds, Sorted, Before, Flatten;
    assert Opened(tables[c], contents[c]);
    SpanItem(reversed, Flats(contents), c, |Flats(contents)[c]| - 1);
    Spans(reversed, Flats(contents), c);
  }

  lemma DecidesMonotone(tables: seq<Table>, contents: seq<seq<seq<Item>>>, reversed: bool, target: Key)
    requires TablesOk(tables, contents)
    ensures Monotone(|tables|, Decides(tables, reversed, target))
  {
    hide Opened, Flatten, Sorted, Before, Decides, TablesOk, LastKey, Ahead;
    forall a: nat, b: nat | a < b < |tables| && Decides(tables, reversed, target)(a) ensures Decides(tables, reversed, target)(b) {
      DecidesIs(tables, contents, reversed, target, a);
      DecidesIs(tables, contents, reversed, target, b);
      LastKeysOrder(tables, contents, reversed, a, b);
      AheadOrder(reversed);
    }
  }

  lemma LastKeysOrder(tables: seq<Table>, contents: seq<seq<seq<Item>>>, reversed: bool, a: nat, b: nat)
    requires TablesOk(tables, contents) && a < b < |tables|
    ensures var ca, cb := if reversed then |tables| - 1 - a else a, if reversed then |tables| - 1 - b else b;
            && Flatten(contents[ca]) != [] && Flatten(contents[cb]) != []
            && Ahead(reversed, LastKey(reversed, contents, ca), LastKey(reversed, contents, cb))
  {
    var ca, cb := if reversed then |tables| - 1 - a else a, if reversed then |tables| - 1 - b else b;
    var fs := Flats(contents);
    LastOfPart(tables, contents, reversed, ca);
    LastOfPart(tables, contents, reversed, cb);
    DirectedSorted(reversed, Flatten(fs));
    PartsInOrder(reversed, fs, ca, cb);
    hide Opened, Flatten, Before, LastKey, Ahead, Start;
    assert fs[cb] != [];
    var d, x, y := Directed(reversed, Flatten(fs)), StartOf(reversed, fs, ca) + |fs[ca]| - 1, StartOf(reversed, fs, cb) + |fs[cb]| - 1;
    assert Ahead(reversed, d[x].key, d[y].key);
  }

  lemma {:induction false} StartMonotone(fs: seq<seq<Item>>, a: int, b: int)
    requires 0 <= a <= b <= |fs|
    ensures Start(fs, a) <= Start(fs, b)
    decreases b - a
  {
    if a < b {
      StartMonotone(fs, a, b - 1);
      FlatSizes(fs, b - 1);
    }
  }

  lemma PartsInOrder(reversed: bool, fs: seq<seq<Item>>, a: int, b: int)
    requires 0 <= a < |fs| && 0 <= b < |fs| && (if reversed then b < a else a < b)
    ensures StartOf(reversed, fs, a) + |fs[a]| <= StartOf(reversed, fs, b)
  {
    FlatSizes(fs, a);
    if reversed { StartMonotone(fs, b + 1, a); } else { StartMonotone(fs, a + 1, b); }
  }

  /** A table that does not reach the target lies wholly before it. */
  lemma EdgeAhead(tables: seq<Table>, contents: seq<seq<seq<Item>>>, reversed: bool, target: Key, r: nat, c: nat)
    requires TablesOk(tables, contents) && r < |tables| == |contents| && !Decides(tables, reversed, target)(r)
    requires c == if reversed then |tables| - 1 - r else r
    ensures var all, end := Directed(reversed, Flatten(Flats(contents))), StartOf(reversed, Flats(contents), c) + |Flats(contents)[c]|;
            0 < end <= |all| && Ahead(reversed, all[end - 1].key, target)
  {
    hide TablesOk, Decides, Ahead, Flatten, Start, Before, LastKey, StartOf, Directed;
    DecidesIs(tables, contents, reversed, target, r);
    LastOfPart(tables, contents, reversed, c);
  }

  lemma AllSorted(tables: seq<Table>, contents: seq<seq<seq<Item>>>, reversed: bool)
    requires TablesOk(tables, contents)
    ensures Sorted(reversed, Directed(reversed, Flatten(Flats(contents)))) && |tables| == |contents|
  {
    hide Opened, Flatten;
    DirectedSorted(reversed, Flatten(Flats(contents)));
  }

  /** A seek past every table. */
  lemma SeekBeyond(tables: seq<Table>, contents: seq<seq<seq<Item>>>, reversed: bool, target: Key)
    requires TablesOk(tables, contents)
    requires |tables| > 0 ==> !Decides(tables, reversed, target)(|tables| - 1)
    ensures var all := Directed(reversed, Flatten(Flats(contents))); IsSeek(reversed, all, target, |all|)
  {
    hide TablesOk, Decides, Ahead, Start;
    var all, fs := Directed(reversed, Flatten(Flats(contents))), Flats(contents);
    AllSorted(tables, contents, reversed);
    if |tables| > 0 {
      hide Flatten;
      EdgeAhead(tables, contents, reversed, target, |tables| - 1, if reversed then 0 else |tables| - 1);
      Spans(reversed, fs, if reversed then 0 else |tables| - 1);
      AheadOrder(reversed);
      forall p | 0 <= p < |all| ensures Ahead(reversed, all[p].key, target) {
        assert p < |all| - 1 ==> Ahead(reversed, all[p].key, all[|all| - 1].key);
      }
    }
  }

  /** A seek decided by the r-th table in the direction of travel. */
  lemma SeekWithin(tables: seq<Table>, contents: seq<seq<seq<Item>>>, reversed: bool, target: Key, r: nat, n: int)
    requires TablesOk(tables, contents) && r < |tables| == |contents|
    requires Decides(tables, reversed, target)(r) && (r > 0 ==> !Decides(tables, reversed, target)(r - 1))
    requires var c := if reversed then |tables| - 1 - r else r; IsSeek(reversed, Directed(reversed, Flatten(contents[c])), target, n)
    ensures var c, fs := if reversed then |tables| - 1 - r else r, Flats(contents);
            && n < |Directed(reversed, Flatten(contents[c]))|
            && IsSeek(reversed, Directed(reversed, Flatten(fs)), target, StartOf(reversed, fs, c) + n)
  {
    hide TablesOk, Decides, Ahead, Flatten, Start;
    var c, fs := if reversed then |tables| - 1 - r else r, Flats(contents);
    var all, start := Directed(reversed, Flatten(fs)), StartOf(reversed, fs, c);
    DecidesIs(tables, contents, reversed, target, r);
    Spans(reversed, fs, c);
    AllSorted(tables, contents, reversed);
    if r > 0 {
      EdgeAhead(tables, contents, reversed, target, r - 1, if reversed then c + 1 else c - 1);
      Spans(reversed, fs, if reversed then c + 1 else c - 1);
    }
    assert n < |fs[c]| by { assert !Ahead(reversed, LastKey(reversed, contents, c), target); }
    assert start > 0 ==> r > 0;
    hide StartOf, Directed, LastKey;
    SeekJoins(reversed, all, target, start, Directed(reversed, fs[c]), n);
  }
}
