/** `MergeIterator` of src/table/merge_iterator.rs: a binary tree of merges over any iterators. */
module MergeIterators {
  import opened Bytes
  import opened Keys
  import opened SstFormat
  import opened Cursors
  import opened TableIterators
  import opened ConcatIterators
  import opened MergeSpec

  /** Any iterator, with the contract all of them keep. */
  datatype Iterators = TableIt(t: TableIterator) | ConcatIt(c: ConcatIterator) | MergeIt(m: MergeIterator) {
    ghost function Obj(): object {
      match this
      case TableIt(t) => t
      case ConcatIt(c) => c
      case MergeIt(m) => m
    }

    ghost function Repr(): (r: set<object>)
      reads Obj()
      ensures Obj() in r
    {
      match this
      case TableIt(t) => t.Repr()
      case ConcatIt(c) => {c} + c.repr
      case MergeIt(m) => {m} + m.repr
    }

    ghost function Items(): seq<Item> {
      match this
      case TableIt(t) => t.Items()
      case ConcatIt(c) => c.Items()
      case MergeIt(m) => m.items
    }

    ghost function Reversed(): bool {
      match this
      case TableIt(t) => t.reversed
      case ConcatIt(c) => c.reversed
      case MergeIt(m) => m.reverse
    }

    ghost function Height(): nat {
      if MergeIt? then m.height else 0
    }

    ghost function Pos(): int
      reads Obj()
    {
      match this
      case TableIt(t) => t.Pos()
      case ConcatIt(c) => c.pos
      case MergeIt(m) => m.pos
    }

    ghost predicate Valid()
      reads Obj(), Repr()
      decreases Height(), 1
    {
      match this
      case TableIt(t) => t.Valid()
      case ConcatIt(c) => c.Valid()
      case MergeIt(m) => m.Valid()
    }

    ghost predicate Ready()
      reads Obj(), Repr()
      decreases Height(), 3
    {
      match this
      case TableIt(t) => t.Ready() && 0 <= Pos() <= |Items()|
      case ConcatIt(c) => c.Ready() && 0 <= Pos() <= |Items()|
      case MergeIt(m) => m.Ready() && 0 <= Pos() <= |Items()|
    }

    // -------------------------------------------------------- enum_dispatch

    method HasEntry() returns (b: bool)
      requires Ready()
      ensures b <==> Pos() < |Items()|
      ensures 0 <= Pos() <= |Items()|
    {
      hide TableIterator.Valid, TableIterator.Placed, ConcatIterator.Valid;
      match this
      case TableIt(t) => t.ReadyFacts(); b := t.HasEntry();
      case ConcatIt(c) => c.ReadyFacts(); b := c.HasEntry();
      case MergeIt(m) => m.ReadyFacts(); b := m.HasEntry();
    }

    method Key() returns (key: Bytes)
      requires Ready() && 0 <= Pos() < |Items()|
      ensures key == Items()[Pos()].key
    {
      hide TableIterator.Valid, TableIterator.Placed, ConcatIterator.Valid;
      match this
      case TableIt(t) => key := t.Key();
      case ConcatIt(c) => key := c.Key();
      case MergeIt(m) => key := m.Key();
    }

    method Val() returns (val: Bytes)
      requires Ready() && 0 <= Pos() < |Items()|
      ensures val == Items()[Pos()].value
      decreases Height(), 5
    {
      hide TableIterator.Valid, TableIterator.Placed, ConcatIterator.Valid;
      match this
      case TableIt(t) => val := t.Val();
      case ConcatIt(c) => val := c.Val();
      case MergeIt(m) => val := m.Val();
    }

    method Next()
      requires Ready() && 0 <= Pos() < |Items()|
      modifies Obj(), Repr()
      ensures Valid() && Ready() && Pos() == old(Pos()) + 1 && fresh(Repr() - old(Repr()))
      decreases Height(), 5
    {
      hide TableIterator.Valid, TableIterator.Placed, ConcatIterator.Valid;
      match this
      case TableIt(t) => t.Next();
      case ConcatIt(c) => c.Next();
      case MergeIt(m) => m.Next();
    }

    method Rewind()
      requires Valid()
      modifies Obj(), Repr()
      ensures Valid() && Ready() && Pos() == 0 && fresh(Repr() - old(Repr()))
      decreases Height(), 5
    {
      hide TableIterator.Valid, TableIterator.Placed, ConcatIterator.Valid;
      match this
      case TableIt(t) => t.Rewind();
      case ConcatIt(c) => c.Rewind();
      case MergeIt(m) => m.Rewind();
    }

    method Seek(target: Key)
      requires Valid()
      modifies Obj(), Repr()
      ensures Valid() && Ready() && IsSeek(Reversed(), Items(), target, Pos()) && fresh(Repr() - old(Repr()))
      decreases Height(), 5
    {
      hide TableIterator.Valid, TableIterator.Placed, ConcatIterator.Valid, IsSeek;
      match this
      case TableIt(t) => t.Seek(target);
      case ConcatIt(c) => c.Seek(target);
      case MergeIt(m) => m.Seek(target);
    }
  }

  /** The three ways to move an iterator, and where each one leaves it. */
  datatype Move = Step | ToStart | To(target: Key)

  ghost predicate Moved(op: Move, it: Iterators, was: int)
    reads it.Obj()
  {
    match op
    case Step => it.Pos() == was + 1
    case ToStart => it.Pos() == 0
    case To(target) => IsSeek(it.Reversed(), it.Items(), target, it.Pos())
  }

  /** Buffers the key of the iterator it wraps. */
  class IteratorNode {
    var valid: bool
    var key: Bytes
    const iter: Iterators

    constructor (iter: Iterators)
      ensures this.iter == iter && !valid
    {
      this.valid, this.key, this.iter := false, [], iter;
    }

    /** The buffer agrees with the iterator. */
    ghost predicate Agrees()
      reads this, iter.Obj()
    {
      && 0 <= iter.Pos() <= |iter.Items()|
      && (valid <==> iter.Pos() < |iter.Items()|)
      && (valid ==> key == iter.Items()[iter.Pos()].key)
    }

    method SetKey()
      requires iter.Ready() && this !in iter.Repr()
      modifies this
      ensures Agrees() && iter.Ready() && (old(iter.Valid()) ==> iter.Valid())
    {
      hide Iterators.Ready, Iterators.Valid;
      valid := iter.HasEntry();
      if valid { key := iter.Key(); }
    }

    method Next()
      requires iter.Ready() && this !in iter.Repr() && 0 <= iter.Pos() < |iter.Items()|
      modifies this, iter.Repr()
      ensures iter.Valid() && iter.Ready() && Agrees() && iter.Pos() == old(iter.Pos()) + 1
      ensures fresh(iter.Repr() - old(iter.Repr()))
      decreases iter.Height(), 6
    {
      hide Iterators.Ready, Iterators.Valid;
      iter.Next();
      SetKey();
    }

    method Rewind()
      requires iter.Valid() && this !in iter.Repr()
      modifies this, iter.Repr()
      ensures iter.Valid() && iter.Ready() && Agrees() && iter.Pos() == 0
      ensures fresh(iter.Repr() - old(iter.Repr()))
      decreases iter.Height(), 6
    {
      hide Iterators.Ready, Iterators.Valid;
      iter.Rewind();
      SetKey();
    }

    method Seek(target: Key)
      requires iter.Valid() && this !in iter.Repr()
      modifies this, iter.Repr()
      ensures iter.Valid() && iter.Ready() && Agrees() && IsSeek(iter.Reversed(), iter.Items(), target, iter.Pos())
      ensures fresh(iter.Repr() - old(iter.Repr()))
      decreases iter.Height(), 6
    {
      hide Iterators.Ready, Iterators.Valid, IsSeek;
      iter.Seek(target);
      SetKey();
    }

    /** One of the three moves. */
    method Go(op: Move)
      requires iter.Valid() && this !in iter.Repr() && (op.Step? ==> iter.Ready() && Agrees() && valid)
      modifies this, iter.Repr()
      ensures iter.Valid() && iter.Ready() && Agrees() && Moved(op, iter, old(iter.Pos()))
      ensures fresh(iter.Repr() - old(iter.Repr()))
      decreases iter.Height(), 7
    {
      hide Iterators.Ready, Iterators.Valid, IsSeek;
      match op {
        case Step => Next();
        case ToStart => Rewind();
        case To(target) => Seek(target);
      }
    }

    ghost function Rest(): seq<Item>
      requires 0 <= iter.Pos() <= |iter.Items()|
      reads this, iter.Obj()
    {
      iter.Items()[iter.Pos()..]
    }
  }

  class MergeIterator {
    const left: IteratorNode
    const right: IteratorNode
    const reverse: bool
    var isLeftSmall: bool
    var currentKey: Bytes

    ghost const items: seq<Item>
    ghost const height: nat
    ghost var pos: int
    ghost var repr: set<object>

    /** What never changes: the children's sequences and the merged one. */
    ghost predicate Shape() {
      && left.iter.Height() < height && right.iter.Height() < height
      && left.iter.Reversed() == reverse && right.iter.Reversed() == reverse
      && Sorted(reverse, left.iter.Items()) && Sorted(reverse, right.iter.Items())
      && items == Merge(reverse, left.iter.Items(), right.iter.Items())
    }

    /** The two children share nothing with each other or with this object. */
    ghost predicate Apart()
      reads this`repr, repr
    {
      && this !in repr && left in repr && right in repr && left.iter.Obj() in repr && right.iter.Obj() in repr
      && left != right
      && left.iter.Repr() <= repr && right.iter.Repr() <= repr && left.iter.Repr() !! right.iter.Repr()
      && {left, right} !! left.iter.Repr() && {left, right} !! right.iter.Repr()
    }

    ghost predicate Valid()
      reads this`repr, repr
      decreases height, 0
    {
      && Apart() && left.iter.Height() < height && right.iter.Height() < height
      && left.iter.Valid() && right.iter.Valid() && Shape()
    }

    /** The flag points at the child to emit next, and no key is waiting on both sides. */
    ghost predicate Fixed()
      reads this, left, right, left.iter.Obj(), right.iter.Obj()
      requires left.Agrees() && right.Agrees()
    {
      if left.valid && right.valid then
        var a, b := left.iter.Items()[left.iter.Pos()].key, right.iter.Items()[right.iter.Pos()].key;
        a != b && (isLeftSmall <==> Ahead(reverse, a, b))
      else
        (left.valid ==> isLeftSmall) && (right.valid ==> !isLeftSmall)
    }

    /** What the children have left merges to what this iterator has left. */
    ghost predicate Left()
      reads this`pos, left, right, left.iter.Obj(), right.iter.Obj()
    {
      && left.Agrees() && right.Agrees()
      && 0 <= pos <= |items| && items[pos..] == Merge(reverse, left.Rest(), right.Rest())
    }

    ghost predicate Ready()
      reads this, repr
      decreases height, 2
    {
      && Valid() && left.iter.Ready() && right.iter.Ready()
      && Left() && Fixed() && (pos < |items| ==> currentKey == items[pos].key)
    }

    /** Both children placed, their buffers up to date. */
    ghost predicate Coherent()
      reads this`repr, repr
    {
      Valid() && left.iter.Ready() && right.iter.Ready() && left.Agrees() && right.Agrees()
    }

    ghost predicate Advancing()
      reads this`repr, this`pos, repr
    {
      Coherent() && Left()
    }

    /** And the child to emit next chosen. */
    ghost predicate Settled()
      reads this, repr
    {
      Advancing() && Fixed()
    }

    lemma ReadySettled()
      requires Ready()
      ensures Settled() && 0 <= pos <= |items| && (pos < |items| ==> currentKey == items[pos].key)
    {
      hide Iterators.Valid, Iterators.Ready, Sorted, Merge;
    }

    /** What `from_iterators` builds for two children. */
    constructor (l: Iterators, r: Iterators, reverse: bool)
      requires l.Valid() && r.Valid() && l.Repr() !! r.Repr()
      requires l.Reversed() == reverse && r.Reversed() == reverse
      requires Sorted(reverse, l.Items()) && Sorted(reverse, r.Items())
      ensures Valid() && fresh(this) && fresh(repr - l.Repr() - r.Repr())
      ensures this.reverse == reverse && items == Merge(reverse, l.Items(), r.Items())
    {
      hide Iterators.Valid, Iterators.Ready, Sorted, Merge;
      var ln := new IteratorNode(l);
      var rn := new IteratorNode(r);
      this.left, this.right, this.reverse := ln, rn, reverse;
      isLeftSmall, currentKey := true, [];
      items := Merge(reverse, l.Items(), r.Items());
      height := 1 + l.Height() + r.Height();
      pos := -1;
      repr := {ln, rn} + l.Repr() + r.Repr();
    }

    predicate HasEntry()
      reads this, left, right
    {
      if isLeftSmall then left.valid else right.valid
    }

    lemma ReadyFacts()
      requires Ready()
      ensures 0 <= pos <= |items| && (HasEntry() <==> pos < |items|)
      ensures pos < |items| ==> var small := if isLeftSmall then left else right;
              items[pos].key == small.key && small.iter.Ready() && 0 <= small.iter.Pos() < |small.iter.Items()|
              && items[pos] == small.iter.Items()[small.iter.Pos()]
    {
      hide Iterators.Valid, Iterators.Ready, Sorted;
      FixedFacts();
    }

    method Val() returns (val: Bytes)
      requires Ready() && 0 <= pos < |items|
      ensures val == items[pos].value
      decreases height, 0
    {
      ReadyFacts();
      HeightsBelow();
      val := (if isLeftSmall then left else right).iter.Val();
    }

    lemma HeightsBelow()
      requires Valid()
      ensures left.iter.Height() < height && right.iter.Height() < height
    {}

    method Key() returns (key: Bytes)
      requires Ready() && 0 <= pos < |items|
      ensures key == items[pos].key
    {
      ReadyFacts();
      key := if isLeftSmall then left.key else right.key;
    }

    /** One child moves; the other child and this object's own fields stay as they are. */
    method MoveLeft(op: Move)
      requires Valid() && (op.Step? ==> left.iter.Ready() && left.Agrees() && left.valid)
      modifies this`repr, left, left.iter.Repr()
      ensures Valid() && fresh(repr - old(repr))
      ensures left.iter.Ready() && left.Agrees() && Moved(op, left.iter, old(left.iter.Pos()))
      ensures right.iter.Pos() == old(right.iter.Pos()) && right.iter.Repr() == old(right.iter.Repr())
      ensures old(right.iter.Ready()) ==> right.iter.Ready()
      ensures old(right.Agrees()) ==> right.Agrees()
      decreases height, 0
    {
      hide Iterators.Ready, Iterators.Valid, Shape, Moved;
      left.Go(op);
      repr := repr + left.iter.Repr();
    }

    method MoveRight(op: Move)
      requires Valid() && (op.Step? ==> right.iter.Ready() && right.Agrees() && right.valid)
      modifies this`repr, right, right.iter.Repr()
      ensures Valid() && fresh(repr - old(repr))
      ensures right.iter.Ready() && right.Agrees() && Moved(op, right.iter, old(right.iter.Pos()))
      ensures left.iter.Pos() == old(left.iter.Pos()) && left.iter.Repr() == old(left.iter.Repr())
      ensures old(left.iter.Ready()) ==> left.iter.Ready()
      ensures old(left.Agrees()) ==> left.Agrees()
      decreases height, 0
    {
      hide Iterators.Ready, Iterators.Valid, Shape, Moved;
      right.Go(op);
      repr := repr + right.iter.Repr();
    }

    /** `smaller_mut().next()` or `right.next()`. */
    method NextChild(isLeft: bool)
      requires Coherent() && (if isLeft then left else right).valid
      modifies this`repr, repr
      ensures Coherent() && fresh(repr - old(repr))
      ensures left.iter.Pos() == old(left.iter.Pos()) + if isLeft then 1 else 0
      ensures right.iter.Pos() == old(right.iter.Pos()) + if isLeft then 0 else 1
      decreases height, 1
    {
      hide Iterators.Ready, Iterators.Valid, Shape;
      if isLeft { MoveLeft(Step); } else { MoveRight(Step); }
    }

    lemma FixedFacts()
      requires Settled()
      ensures 0 <= pos <= |items| && (HasEntry() <==> pos < |items|)
      ensures pos < |items| ==> items[pos].key == (if isLeftSmall then left else right).key
      ensures pos < |items| ==> (if isLeftSmall then left else right).Rest() != []
                                && items[pos] == (if isLeftSmall then left else right).Rest()[0]
    {
      hide Iterators.Ready, Iterators.Valid, Sorted;
      var a, b := left.Rest(), right.Rest();
      if a != [] && b != [] { Unfold(reverse, a, b); }
      assert pos < |items| ==> items[pos..][0] == items[pos];
    }

    lemma ItemsDistinct()
      requires Settled()
      ensures forall i, j :: 0 <= i < j < |items| ==> items[i].key != items[j].key
    {
      hide Iterators.Ready, Iterators.Valid, Merge;
      MergeSorted(reverse, left.iter.Items(), right.iter.Items());
      AheadOrder(reverse);
      hide Ahead;
    }

    lemma RestSorted()
      requires Coherent()
      ensures Sorted(reverse, left.Rest()) && Sorted(reverse, right.Rest())
    {
      hide Iterators.Ready, Iterators.Valid, Merge, Ahead, Iterators.Repr, Iterators.Items, MergeIterator.Apart;
    }

    /** Emit the chosen child's head. */
    method StepSmaller()
      requires Settled() && HasEntry()
      modifies this, repr
      ensures Advancing() && fresh(repr - old(repr))
      ensures pos == old(pos) + 1 && currentKey == old(currentKey)
      decreases height, 2
    {
      hide Iterators.Ready, Iterators.Valid, Sorted, Merge, Ahead, Shape;
      ghost var a, b := left.Rest(), right.Rest();
      StepMerge(reverse, a, b, isLeftSmall);
      NextChild(isLeftSmall);
      pos := pos + 1;
      assert left.Rest() == (if isLeftSmall then a[1..] else a) && right.Rest() == (if isLeftSmall then b else b[1..]);
      assert items[pos..] == items[pos - 1..][1..];
    }

    method RewindBoth()
      requires Valid()
      modifies this, repr
      ensures Coherent() && fresh(repr - old(repr)) && pos == 0
      ensures left.iter.Pos() == 0 && right.iter.Pos() == 0
      decreases height, 2
    {
      hide Iterators.Ready, Iterators.Valid, Sorted, Merge;
      MoveLeft(ToStart);
      MoveRight(ToStart);
      pos := 0;
    }

    method SeekBoth(target: Key)
      requires Valid()
      modifies this, repr
      ensures Advancing() && fresh(repr - old(repr)) && IsSeek(reverse, items, target, pos)
      decreases height, 2
    {
      hide Iterators.Ready, Iterators.Valid, Sorted, Merge, IsSeek;
      MoveLeft(To(target));
      MoveRight(To(target));
      ghost var p := MergeSeek(reverse, left.iter.Items(), right.iter.Items(), target, left.iter.Pos(), right.iter.Pos());
      pos := p;
    }

    /** The Equal arm of `fix`: the right copy of a shared key is passed over. */
    method DropTwin()
      requires Advancing() && left.valid && right.valid && left.key == right.key
      modifies this, repr
      ensures Settled() && fresh(repr - old(repr))
      ensures pos == old(pos) && currentKey == old(currentKey)
      decreases height, 2
    {
      hide Valid, Advancing, Coherent, Settled, Merge, Sorted;
      TwinFacts();
      ghost var a, b := left.Rest(), right.Rest();
      DropRight(reverse, a, b);
      NextChild(false);
      Outside();
      if !isLeftSmall { isLeftSmall := true; }
      TwinGone(a, b);
    }

    lemma Outside()
      requires Coherent()
      ensures this !in repr
    {}

    lemma TwinFacts()
      requires Advancing() && left.valid && right.valid && left.key == right.key
      ensures Valid() && Coherent() && this !in repr && 0 <= pos <= |items|
      ensures 0 <= left.iter.Pos() < |left.iter.Items()| && 0 <= right.iter.Pos() < |right.iter.Items()|
      ensures var a, b := left.Rest(), right.Rest();
              a != [] && b != [] && a[0].key == b[0].key && Sorted(reverse, b) && items[pos..] == Merge(reverse, a, b)
    {
      hide Iterators.Ready, Iterators.Valid, Merge, Ahead, Sorted, Shape;
      RestSorted();
    }

    lemma TwinGone(a: seq<Item>, b: seq<Item>)
      requires Coherent() && 0 <= left.iter.Pos() <= |left.iter.Items()| && 0 <= right.iter.Pos() <= |right.iter.Items()|
      requires a != [] && b != [] && a[0].key == b[0].key && Sorted(reverse, b) && isLeftSmall
      requires left.Rest() == a && right.Rest() == b[1..]
      requires 0 <= pos <= |items| && items[pos..] == Merge(reverse, a, b[1..])
      ensures Settled()
    {
      hide Iterators.Ready, Iterators.Valid, Merge, Ahead, Sorted, Shape;
      assert left.iter.Items()[left.iter.Pos()] == a[0];
      if right.valid {
        assert right.iter.Items()[right.iter.Pos()] == b[1..][0] == b[1];
        NextAhead(reverse, b);
      }
    }

    /** `fix`: choose the child to emit next; a key waiting on both sides is dropped on the right. */
    method Fix()
      requires Advancing()
      modifies this, repr
      ensures Settled() && fresh(repr - old(repr))
      ensures pos == old(pos) && currentKey == old(currentKey)
      decreases height, 3
    {
      hide Iterators.Ready, Iterators.Valid, Sorted, Merge, Before, Shape;
      if !(if isLeftSmall then right else left).valid { return; }
      if !(if isLeftSmall then left else right).valid {
        isLeftSmall := !isLeftSmall;
        return;
      }
      var small: Key, big: Key := (if isLeftSmall then left else right).key, (if isLeftSmall then right else left).key;
      BeforeFlip(small, big);
      if small == big {
        DropTwin();
      } else if Before(small, big) {
        if reverse { isLeftSmall := !isLeftSmall; }
      } else {
        if !reverse { isLeftSmall := !isLeftSmall; }
      }
    }

    /** `set_current` */
    method SetCurrent()
      requires Settled()
      modifies this`currentKey
      ensures Ready()
    {
      hide Iterators.Ready, Iterators.Valid, Sorted;
      FixedFacts();
      currentKey := (if isLeftSmall then left else right).key;
    }

    /** `next`: step past the current key, which the loop's second look at the head confirms is gone. */
    method Next()
      requires Ready()
      modifies this, repr
      ensures Ready() && pos == (if old(pos) < |items| then old(pos) + 1 else |items|) && fresh(repr - old(repr))
      decreases height, 4
    {
      hide Valid, Ready, Advancing, Settled;
      ghost var start := pos;
      ReadySettled();
      ItemsDistinct();
      while HasEntry()
        invariant Settled() && fresh(repr - old(repr))
        invariant (pos == start || pos == start + 1) && (start < |items| ==> currentKey == items[start].key)
        decreases start + 1 - pos
      {
        FixedFacts();
        if (if isLeftSmall then left else right).key != currentKey { break; }
        StepSmaller();
        Fix();
      }
      FixedFacts();
      SetCurrent();
    }

    method Rewind()
      requires Valid()
      modifies this, repr
      ensures Ready() && pos == 0 && fresh(repr - old(repr))
      decreases height, 4
    {
      hide Valid, Ready, Advancing, Settled, Coherent;
      RewindBoth();
      AtStart();
      Fix();
      SetCurrent();
    }

    lemma AtStart()
      requires Coherent() && pos == 0 && left.iter.Pos() == 0 && right.iter.Pos() == 0
      ensures Advancing()
    {
      hide Iterators.Ready, Iterators.Valid, Sorted, Merge;
      assert items[0..] == items;
    }

    /** `seek`: seeking both children seeks the merge. */
    method Seek(target: Key)
      requires Valid()
      modifies this, repr
      ensures Ready() && IsSeek(reverse, items, target, pos) && fresh(repr - old(repr))
      decreases height, 4
    {
      hide Iterators.Ready, Iterators.Valid, Sorted, Merge, IsSeek;
      SeekBoth(target);
      Fix();
      SetCurrent();
    }
  }

  lemma NextAhead(reversed: bool, items: seq<Item>)
    requires Sorted(reversed, items) && |items| > 1
    ensures Ahead(reversed, items[0].key, items[1].key) && items[0].key != items[1].key
  {
    AheadOrder(reversed);
    hide Before;
  }

  lemma StepMerge(reversed: bool, a: seq<Item>, b: seq<Item>, left: bool)
    requires if left then a != [] else b != []
    requires a != [] && b != [] ==> a[0].key != b[0].key && (left <==> Ahead(reversed, a[0].key, b[0].key))
    requires (a != [] && b == [] ==> left) && (a == [] && b != [] ==> !left)
    ensures var m := Merge(reversed, a, b);
            m != [] && m[1..] == if left then Merge(reversed, a[1..], b) else Merge(reversed, a, b[1..])
  {
    if a != [] && b != [] { Unfold(reversed, a, b); }
  }

  // ------------------------------------------------------------ building a tree

  ghost function AllItems(iters: seq<Iterators>): (ss: seq<seq<Item>>)
    ensures |ss| == |iters|
  {
    seq(|iters|, i requires 0 <= i < |iters| => iters[i].Items())
  }

  ghost function Union(iters: seq<Iterators>): set<object>
    reads set i | 0 <= i < |iters| :: iters[i].Obj()
  {
    set i: int, o: object | 0 <= i < |iters| && o in iters[i].Repr() :: o
  }

  /** Separate iterators over sorted sequences, all travelling the same way, built from these objects. */
  ghost predicate Mergeable(iters: seq<Iterators>, reverse: bool, footprint: set<object>)
    reads footprint
  {
    && (forall i :: 0 <= i < |iters| ==> Sound(iters[i], reverse, footprint))
    && (forall i, j :: 0 <= i < j < |iters| ==> Separate(iters[i], iters[j], footprint))
  }

  ghost predicate Sound(it: Iterators, reverse: bool, footprint: set<object>)
    reads footprint
  {
    && it.Obj() in footprint && it.Repr() <= footprint && it.Valid()
    && it.Reversed() == reverse && Sorted(reverse, it.Items())
  }

  ghost predicate Separate(a: Iterators, b: Iterators, footprint: set<object>)
    reads footprint
  {
    a.Obj() in footprint && b.Obj() in footprint && a.Repr() !! b.Repr()
  }

  /** A stretch of separate iterators stands on its own part of the footprint. */
  lemma PartMergeable(iters: seq<Iterators>, reverse: bool, footprint: set<object>, lo: nat, hi: nat)
    requires lo <= hi <= |iters| && Mergeable(iters, reverse, footprint)
    ensures Mergeable(iters[lo..hi], reverse, Union(iters[lo..hi])) && Union(iters[lo..hi]) <= footprint
    ensures AllItems(iters[lo..hi]) == AllItems(iters)[lo..hi]
  {
    hide Sound, Separate, Union, Iterators.Items;
    var part := iters[lo..hi];
    forall i | 0 <= i < |part| ensures Sound(part[i], reverse, Union(part)) {
      assert Sound(iters[lo + i], reverse, footprint);
      SoundIn(part, i, reverse, footprint);
    }
    forall i, j | 0 <= i < j < |part| ensures Separate(part[i], part[j], Union(part)) {
      assert Separate(iters[lo + i], iters[lo + j], footprint);
      assert Sound(iters[lo + i], reverse, footprint) && Sound(iters[lo + j], reverse, footprint);
      SoundIn(part, i, reverse, footprint);
      SoundIn(part, j, reverse, footprint);
      SeparateIn(part[i], part[j], footprint, Union(part));
    }
    forall o | o in Union(part) ensures o in footprint {
      InUnion(part, o);
      var i :| 0 <= i < |part| && o in part[i].Repr();
      assert Sound(iters[lo + i], reverse, footprint);
      SoundRepr(iters[lo + i], reverse, footprint);
    }
  }

  lemma SoundIn(part: seq<Iterators>, i: int, reverse: bool, footprint: set<object>)
    requires 0 <= i < |part| && Sound(part[i], reverse, footprint)
    ensures Sound(part[i], reverse, Union(part)) && part[i].Obj() in Union(part)
  {
    hide Iterators.Items, Iterators.Valid, Sorted, Iterators.Reversed;
  }

  lemma SoundRepr(it: Iterators, reverse: bool, footprint: set<object>)
    requires Sound(it, reverse, footprint)
    ensures it.Repr() <= footprint
  {}

  lemma SeparateIn(a: Iterators, b: Iterators, footprint: set<object>, other: set<object>)
    requires Separate(a, b, footprint) && a.Obj() in other && b.Obj() in other
    ensures Separate(a, b, other)
  {}

  lemma InUnion(part: seq<Iterators>, o: object)
    requires o in Union(part)
    ensures exists i :: 0 <= i < |part| && o in part[i].Repr()
  {}

  lemma PartsDisjoint(iters: seq<Iterators>, reverse: bool, footprint: set<object>, mid: nat)
    requires mid <= |iters| && Mergeable(iters, reverse, footprint)
    ensures Union(iters[0..mid]) !! Union(iters[mid..|iters|])
  {
    hide Iterators.Repr, Iterators.Items, Iterators.Valid, Sorted, Iterators.Reversed;
    var l, r := iters[0..mid], iters[mid..|iters|];
    forall i, j | 0 <= i < |l| && 0 <= j < |r| ensures l[i].Repr() !! r[j].Repr() {
      assert l[i] == iters[i] && r[j] == iters[mid + j];
      assert Separate(iters[i], iters[mid + j], footprint);
    }
  }

  lemma OneMergeable(iters: seq<Iterators>, reverse: bool, footprint: set<object>)
    requires |iters| == 1 && Mergeable(iters, reverse, footprint)
    ensures iters[0].Valid() && iters[0].Reversed() == reverse && iters[0].Repr() <= footprint
    ensures AllItems(iters)[0] == iters[0].Items() && Sorted(reverse, iters[0].Items())
  {}

  /** `from_iterators`: a balanced tree whose leaves are the iterators in order. */
  method FromIterators(iters: seq<Iterators>, reverse: bool, ghost footprint: set<object>) returns (it: Iterators)
    requires iters != [] && Mergeable(iters, reverse, footprint)
    ensures it.Valid() && it.Reversed() == reverse && fresh(it.Repr() - footprint)
    ensures it.Items() == MergeAll(reverse, AllItems(iters)) && Sorted(reverse, it.Items())
    decreases |iters|
  {
    hide Iterators.Items, Iterators.Valid, Sorted, Union, Iterators.Reversed, Mergeable, Merge, MergeAll, AllItems;
    SplitAt(reverse, AllItems(iters));
    if |iters| == 1 {
      it := iters[0];
      OneMergeable(iters, reverse, footprint);
      assert fresh(it.Repr() - footprint);
    } else {
      var n, mid := |iters|, |iters| / 2;
      PartMergeable(iters, reverse, footprint, 0, mid);
      PartMergeable(iters, reverse, footprint, mid, n);
      PartsDisjoint(iters, reverse, footprint, mid);
      ghost var fl, fr := Union(iters[0..mid]), Union(iters[mid..n]);
      var l := FromIterators(iters[0..mid], reverse, fl);
      var r := FromIterators(iters[mid..n], reverse, fr);
      ghost var lr, rr := l.Repr(), r.Repr();
      assert fresh(lr - footprint) && fresh(rr - footprint);
      it := Join(l, r, reverse);
      assert l.Repr() == lr && r.Repr() == rr;
      assert fresh(it.Repr() - lr - rr);
    }
  }

  lemma SplitAt(reverse: bool, seqs: seq<seq<Item>>)
    requires seqs != []
    ensures var n, mid := |seqs|, |seqs| / 2;
            MergeAll(reverse, seqs)
              == if n == 1 then seqs[0] else Merge(reverse, MergeAll(reverse, seqs[0..mid]), MergeAll(reverse, seqs[mid..n]))
  {
    assert seqs[..|seqs| / 2] == seqs[0..|seqs| / 2] && seqs[|seqs| / 2..] == seqs[|seqs| / 2..|seqs|];
  }

  /** The node `from_iterators` allocates for two subtrees. */
  method Join(l: Iterators, r: Iterators, reverse: bool) returns (it: Iterators)
    requires l.Valid() && r.Valid() && l.Repr() !! r.Repr()
    requires l.Reversed() == reverse && r.Reversed() == reverse
    requires Sorted(reverse, l.Items()) && Sorted(reverse, r.Items())
    ensures it.Valid() && it.Reversed() == reverse && fresh(it.Repr() - l.Repr() - r.Repr())
    ensures it.Items() == Merge(reverse, l.Items(), r.Items()) && Sorted(reverse, it.Items())
  {
    hide Sorted, Merge, MergeIterator.Valid, TableIterator.Valid, ConcatIterator.Valid;
    MergeSorted(reverse, l.Items(), r.Items());
    var m := new MergeIterator(l, r, reverse);
    it := MergeIt(m);
    assert m in it.Repr() && it.Repr() == {m} + m.repr;
  }

  /** Rewind, then `next` until the end. */
  method Collect(it: Iterators) returns (items: seq<Item>)
    requires it.Valid()
    modifies it.Repr()
    ensures items == it.Items()
  {
    hide Iterators.Ready, Iterators.Valid, Iterators.Items;
    items := [];
    it.Rewind();
    var more := it.HasEntry();
    while more
      invariant it.Ready() && fresh(it.Repr() - old(it.Repr()))
      invariant 0 <= it.Pos() <= |it.Items()| && (more <==> it.Pos() < |it.Items()|)
      invariant items == it.Items()[..it.Pos()]
      decreases |it.Items()| - it.Pos()
    {
      var key := it.Key();
      var val := it.Val();
      ghost var n := it.Pos();
      items := items + [Item(key, val)];
      it.Next();
      assert it.Items()[..n + 1] == it.Items()[..n] + [it.Items()[n]];
      more := it.HasEntry();
    }
  }
}
