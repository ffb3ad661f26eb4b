/** The contract every iterator of src/iterator_trait.rs is proved to keep: a cursor over a strictly
    sorted sequence, listed in the direction of travel. */
module Cursors {
  import opened Keys
  import opened SstFormat

  /** a comes before b when travelling in the given direction. */
  ghost predicate Ahead(reversed: bool, a: Key, b: Key) {
    if reversed then Before(b, a) else Before(a, b)
  }

  ghost predicate Sorted(reversed: bool, items: seq<Item>) {
    forall i, j :: 0 <= i < j < |items| ==> Ahead(reversed, items[i].key, items[j].key)
  }

  /** n is where a seek for `key` has to land: everything before it is ahead of the key, nothing after it is. */
  ghost predicate IsSeek(reversed: bool, items: seq<Item>, key: Key, n: int) {
    && 0 <= n <= |items|
    && (forall i :: 0 <= i < n ==> Ahead(reversed, items[i].key, key))
    && (forall i :: n <= i < |items| ==> !Ahead(reversed, items[i].key, key))
  }

  lemma AheadOrder(reversed: bool)
    ensures forall a: Key :: !Ahead(reversed, a, a)
    ensures forall a: Key, b: Key, c: Key {:trigger Ahead(reversed, a, b), Ahead(reversed, b, c)} ::
              Ahead(reversed, a, b) && Ahead(reversed, b, c) ==> Ahead(reversed, a, c)
    ensures forall a: Key, b: Key {:trigger Ahead(reversed, a, b)} :: Ahead(reversed, a, b) || a == b || Ahead(reversed, b, a)
  {
    hide Before;
    KeyOrder();
  }

  /** A seek inside one stretch of a sorted sequence decides the seek in the whole. */
  lemma SeekJoins(reversed: bool, all: seq<Item>, target: Key, start: int, part: seq<Item>, n: int)
    requires Sorted(reversed, all) && 0 <= start <= start + |part| <= |all|
    requires forall k :: 0 <= k < |part| ==> all[start + k] == part[k]
    requires start > 0 ==> Ahead(reversed, all[start - 1].key, target)
    requires IsSeek(reversed, part, target, n)
    requires n == |part| && start + n < |all| ==> !Ahead(reversed, all[start + n].key, target)
    ensures IsSeek(reversed, all, target, start + n)
  {
    hide Ahead;
    AheadOrder(reversed);
    forall p | 0 <= p < start + n ensures Ahead(reversed, all[p].key, target) {
      if p < start {
        assert p < start - 1 ==> Ahead(reversed, all[p].key, all[start - 1].key);
      } else {
        assert all[start + (p - start)] == part[p - start];
      }
    }
    forall p | start + n <= p < |all| ensures !Ahead(reversed, all[p].key, target) {
      if n < |part| { assert all[start + n] == part[n]; }
      assert p > start + n ==> Ahead(reversed, all[start + n].key, all[p].key);
    }
  }

  lemma BeforeFlip(a: Key, b: Key)
    ensures a != b ==> (Before(a, b) <==> !Before(b, a))
  {
    BeforeTotal(a, b);
    BeforeIrreflexive(a);
    if Before(a, b) && Before(b, a) { BeforeTransitive(a, b, a); }
  }

  lemma BeforeOneWay(a: Key, b: Key)
    requires Before(a, b)
    ensures !Before(b, a)
  {
    BeforeIrreflexive(a);
    if Before(b, a) { BeforeTransitive(a, b, a); }
  }

  lemma BeforeUpTo(a: Key, b: Key, c: Key)
    requires Before(a, b) && !Before(c, b)
    ensures Before(a, c)
  {
    BeforeFlip(b, c);
    if b != c { BeforeTransitive(a, b, c); }
  }

  /** In a sorted sequence one comparison decides for everything on its side. */
  lemma DecidedBelow(items: seq<Item>, target: Key, h: int)
    requires Sorted(false, items) && 0 <= h < |items| && Before(items[h].key, target)
    ensures forall k :: 0 <= k <= h ==> Before(items[k].key, target)
  {
    hide Before;
    forall k | 0 <= k < h ensures Before(items[k].key, target) {
      assert Ahead(false, items[k].key, items[h].key);
      BeforeTransitive(items[k].key, items[h].key, target);
    }
  }

  lemma DecidedAbove(items: seq<Item>, target: Key, h: int)
    requires Sorted(false, items) && 0 <= h < |items| && !Before(items[h].key, target)
    ensures forall k :: h <= k < |items| ==> !Before(items[k].key, target)
  {
    hide Before;
    forall k | h < k < |items| ensures !Before(items[k].key, target) {
      assert Ahead(false, items[h].key, items[k].key);
      if Before(items[k].key, target) { BeforeTransitive(items[h].key, items[k].key, target); }
    }
  }

  lemma FlattenExtend(blocks: seq<seq<Item>>, last: seq<Item>)
    ensures Flatten(blocks + [last]) == Flatten(blocks) + last
  {
    assert (blocks + [last])[..|blocks|] == blocks;
  }

  // ------------------------------------------------------------ blocks laid end to end

  ghost function Flatten(blocks: seq<seq<Item>>): seq<Item> {
    if blocks == [] then [] else Flatten(blocks[..|blocks| - 1]) + blocks[|blocks| - 1]
  }

  ghost function Start(blocks: seq<seq<Item>>, b: int): nat
    requires 0 <= b <= |blocks|
  {
    |Flatten(blocks[..b])|
  }

  lemma {:induction false} FlatSizes(blocks: seq<seq<Item>>, b: int)
    requires 0 <= b < |blocks|
    ensures Start(blocks, b + 1) == Start(blocks, b) + |blocks[b]| <= |Flatten(blocks)|
    ensures b + 1 == |blocks| ==> Start(blocks, b + 1) == |Flatten(blocks)|
    decreases |blocks|
  {
    var n := |blocks| - 1;
    assert blocks[..b + 1][..b] == blocks[..b];
    if b < n {
      FlatSizes(blocks[..n], b);
      assert blocks[..n][..b] == blocks[..b] && blocks[..n][..b + 1] == blocks[..b + 1];
    } else {
      assert blocks[..b + 1] == blocks;
    }
  }

  lemma {:induction false} FlatAt(blocks: seq<seq<Item>>, b: int, j: int)
    requires 0 <= b < |blocks| && 0 <= j < |blocks[b]|
    ensures Start(blocks, b) + j < |Flatten(blocks)| && Flatten(blocks)[Start(blocks, b) + j] == blocks[b][j]
    decreases |blocks|
  {
    var n := |blocks| - 1;
    FlatSizes(blocks, b);
    if b < n {
      FlatAt(blocks[..n], b, j);
      assert blocks[..n][..b] == blocks[..b];
    }
  }

  lemma StartEnds(blocks: seq<seq<Item>>)
    ensures Start(blocks, 0) == 0 && Start(blocks, |blocks|) == |Flatten(blocks)|
  {
    assert blocks[..0] == [] && blocks[..|blocks|] == blocks;
  }

  ghost function Reverse(items: seq<Item>): (r: seq<Item>)
    ensures |r| == |items| && forall i :: 0 <= i < |items| ==> r[i] == items[|items| - 1 - i]
  {
    seq(|items|, i requires 0 <= i < |items| => items[|items| - 1 - i])
  }

  /** The sequence as an iterator meets it. */
  ghost function Directed(reversed: bool, items: seq<Item>): seq<Item> {
    if reversed then Reverse(items) else items
  }
}
