/** `TableRefIterator` of src/table/iterator.rs: a cursor over the blocks of one table. */
module TableIterators {
  import opened Wrappers
  import opened Bytes
  import opened Keys
  import opened SstFormat
  import opened SstTable
  import opened Cursors
  import opened BlockIterators
  import opened Util

  class TableIterator {
    const table: Table
    const reversed: bool
    var bpos: nat
    var bi: BlockIterator?
    var err: Option<IteratorError>

    /** What the table holds, block by block, and where the cursor is in the flat sequence:
        -1 before the first entry, the length past the last one. */
    ghost const blocks: seq<seq<Item>>
    ghost var at: int

    ghost function Flat(): seq<Item> { Flatten(blocks) }

    ghost function Repr(): set<object>
      reads this
    {
      {this} + if bi == null then {} else {bi}
    }

    ghost predicate Valid()
      reads this`bi, bi
    {
      && Holds(table, blocks) && |blocks| < USIZE_MAX
      && Sorted(false, Flat())
      && (bi != null ==> bi.Valid() && bi.sum == table.sum)
    }

    ghost predicate InBlock()
      reads this, bi
    {
      bi != null && bpos < |blocks| && bi.items == blocks[bpos] && bi.Loaded()
    }

    ghost predicate OnEntry()
      reads this, bi
    {
      InBlock() && bi.On() && err == None && at == Start(blocks, bpos) + bi.idx
    }

    ghost predicate PastEnd()
      reads this, bi
    {
      && bi != null && err.Some? && at == |Flat()|
      && ((bpos == |blocks| && !bi.Loaded())
          || (bpos == |blocks| - 1 && InBlock() && bi.err == Some(EOF) && bi.idx == |bi.items|))
    }

    ghost predicate BeforeStart()
      reads this, bi
    {
      bi != null && err.Some? && at == -1 && bpos == USIZE_MAX && !bi.Loaded()
    }

    ghost predicate Placed()
      reads this, bi
    {
      OnEntry() || PastEnd() || BeforeStart()
    }

    /** Between blocks while moving forward, or not yet moved at all. */
    ghost predicate BeforeBlock()
      reads this, bi
    {
      (bi != null ==> !bi.Loaded()) && bpos <= |blocks| && at + 1 == Start(blocks, bpos)
    }

    /** Just created: no block loaded, at block 0. */
    ghost predicate Unmoved()
      reads this
    {
      bi == null && bpos == 0 && err == None && at == -1
    }

    constructor (table: Table, reversed: bool, ghost blocks: seq<seq<Item>>)
      requires Holds(table, blocks) && |blocks| < USIZE_MAX && Sorted(false, Flatten(blocks))
      ensures Valid() && Unmoved() && fresh(Repr())
      ensures this.table == table && this.reversed == reversed && this.blocks == blocks
    {
      this.table, this.reversed, this.blocks := table, reversed, blocks;
      bpos, bi, err, at := 0, null, None, -1;
    }

    /** `table.block(bpos)` followed by `get_block_iterator`, with the error stored on failure. */
    method LoadBlock() returns (ok: bool)
      requires Valid()
      modifies this`bi, this`err, bi
      ensures Valid() && ok == (bpos < |blocks|)
      ensures bi == old(bi) || fresh(bi)
      ensures ok ==> InBlock() && err == old(err)
      ensures !ok ==> bi == old(bi) && err == Some(Failed(BlockIndex)) && (bi != null ==> bi.Loaded() == old(bi.Loaded()))
    {
      hide Holds, BlockOf, ReadBlock, Sorted;
      BlockRead(table, blocks, bpos);
      match ReadBlock(table, bpos)
      case Ok(block) =>
        if bi != null {
          bi.SetBlock(block, blocks[bpos]);
        } else {
          bi := new BlockIterator(table.sum, block, blocks[bpos]);
        }
        ok := true;
      case Err(e) =>
        err := Some(Failed(e));
        ok := false;
    }

    /** Load the block at `bpos` and stop on its first or last entry, as every move between blocks does. */
    method EnterBlock(last: bool)
      requires Valid()
      modifies this`bi, this`err, this`at, bi
      ensures Valid() && (bi == old(bi) || fresh(bi))
      ensures if bpos < |blocks| then OnEntry() && at == Start(blocks, bpos) + (if last then |blocks[bpos]| - 1 else 0)
              else bi == old(bi) && at == old(at) && err == Some(Failed(BlockIndex)) && (bi != null ==> bi.Loaded() == old(bi.Loaded()))
    {
      hide Holds, BlockOf, Sorted, Start, BlockIterator.Valid;
      var ok := LoadBlock();
      if ok {
        if last { bi.SeekToLast(); } else { bi.SeekToFirst(); }
        err := bi.err;
        at := Start(blocks, bpos) + bi.idx;
      }
    }

    method SeekToFirst()
      requires Valid()
      modifies this, bi
      ensures Valid() && OnEntry() && at == 0 && (bi == old(bi) || fresh(bi))
    {
      hide Holds, BlockOf, Sorted, Flatten, BlockIterator.Valid, BlockIterator.On, Start;
      BlockRead(table, blocks, 0);
      StartEnds(blocks);
      bpos := 0;
      EnterBlock(false);
    }

    method SeekToLast()
      requires Valid()
      modifies this, bi
      ensures Valid() && OnEntry() && at == |Flat()| - 1 && (bi == old(bi) || fresh(bi))
    {
      hide Holds, BlockOf, Sorted, Flatten, BlockIterator.Valid, BlockIterator.On, Start;
      BlockRead(table, blocks, 0);
      bpos := |table.index.offsets| - 1;
      FlatSizes(blocks, bpos);
      EnterBlock(true);
    }

    /** `seek_helper`: load a block and search it. */
    method SeekInBlock(b: nat, target: Key)
      requires Valid() && b < |blocks|
      modifies this`bpos, this`bi, this`err, bi
      ensures Valid() && (bi == old(bi) || fresh(bi)) && InBlock() && bpos == b
      ensures IsSeek(false, blocks[b], target, bi.idx) && err == bi.err
      ensures if bi.idx < |blocks[b]| then bi.On() else err == Some(EOF) && bi.idx == |blocks[b]|
    {
      hide Holds, BlockOf, IsSeek;
      BlockSorted(blocks, b);
      hide Sorted;
      bpos := b;
      var ok := LoadBlock();
      bi.Seek(target, Origin);
      err := bi.err;
    }

    /** The first level of `seek_from`: the number of blocks whose first key is at most the target. */
    method SearchIndex(target: Key) returns (i: nat)
      requires Valid()
      ensures i <= |blocks| == |table.index.offsets| && blocks != []
      ensures i > 0 ==> !Before(target, FirstKey(blocks, i - 1))
      ensures i < |blocks| ==> Before(target, FirstKey(blocks, i))
    {
      hide Before, BlockOf, FirstKey, Flatten, IndexAbove, BlockIterator.Valid, Sorted, Holds, Monotone;
      IndexMonotone(table, blocks, target);
      i := Search(|table.index.offsets|, IndexAbove(table, target));
      assert i < |blocks| ==> IndexAbove(table, target)(i);
      assert i > 0 ==> !IndexAbove(table, target)(i - 1);
    }

    /** `seek_from` with SeekPos::Origin, the only way it is called: the two-level search lands where a
        search of the flat sequence would. */
    method SeekFrom(target: Key)
      requires Valid()
      modifies this, bi
      ensures Valid() && (OnEntry() || PastEnd()) && InBlock() && (bi == old(bi) || fresh(bi))
      ensures IsSeek(false, Flat(), target, at)
    {
      hide Before, BlockOf, IsSeek, FirstKey, Flatten, BlockIterator.Valid, Holds, Sorted, Start, BlockOk;
      err := None;
      bpos := 0;
      HoldsOk(table, blocks);
      BlocksNotEmpty(blocks);
      var i := SearchIndex(target);
      if i == 0 {
        SeekInBlock(0, target);
        at := bi.idx;
        SeekAtStart(blocks, target, bi.idx);
        return;
      }
      SeekInBlock(i - 1, target);
      at := Start(blocks, i - 1) + bi.idx;
      SeekLifts(blocks, i - 1, target, bi.idx);
      if err == Some(EOF) && i < |table.index.offsets| {
        FlatSizes(blocks, i - 1);
        SeekInBlock(i, target);
        FirstAbove(blocks, i, target, bi.idx);
      }
    }

    lemma Counts()
      requires Valid()
      ensures |table.index.offsets| == |blocks| && 0 < |blocks| < USIZE_MAX
      ensures bi != null ==> bi.Valid()
    {
      BlockRead(table, blocks, 0);
    }

    method BlockNext()
      requires Valid() && InBlock()
      modifies bi
      ensures Valid() && InBlock() && bi.idx == old(bi.idx) + 1
      ensures if bi.idx < |bi.items| then bi.On() else bi.err == Some(EOF)
    {
      hide BlockIterator.Valid, Holds, Sorted, BlockIterator.On;
      bi.Next();
    }

    method BlockPrev()
      requires Valid() && InBlock()
      modifies bi
      ensures Valid() && InBlock()
      ensures if old(bi.idx) == 0 then bi.err == Some(EOF)
              else bi.idx == old(bi.idx) - 1 && if bi.idx < |bi.items| then bi.On() else bi.err == Some(EOF)
    {
      hide BlockIterator.Valid, Holds, Sorted, BlockIterator.On;
      bi.Prev();
    }

    /** `next_inner` with no block loaded: the branch its recursive call always takes. */
    method NextBlock()
      requires Valid() && BeforeBlock()
      modifies this`err, this`at, this`bi, bi
      ensures Valid() && (bi == old(bi) || fresh(bi))
      ensures if bpos < |blocks| then OnEntry() && at == Start(blocks, bpos)
              else at == |Flat()| && err == Some(EOF) && bi == old(bi) && (bi != null ==> bi.Loaded() == old(bi.Loaded()))
    {
      hide Holds, BlockOf, Sorted, Flatten, BlockIterator.Valid, BlockIterator.On, Start;
      StartEnds(blocks);
      BlockRead(table, blocks, bpos);
      err := None;
      if bpos >= |table.index.offsets| {
        err := Some(EOF);
        at := |Flat()|;
      } else {
        EnterBlock(false);
      }
    }

    /** `next_inner` past the last entry of a block. */
    method LeaveForward()
      requires Valid() && InBlock()
      modifies this, bi
      ensures Valid() && (bi == old(bi) || fresh(bi))
      ensures (if old(bpos) + 1 < |blocks| then OnEntry() else PastEnd() && err == Some(EOF))
              && at == Start(blocks, old(bpos) + 1)
    {
      hide Holds, BlockOf, Sorted, Flatten, BlockIterator.Valid, BlockIterator.On, Start;
      StartEnds(blocks);
      bpos := bpos + 1;
      bi.Clear();
      at := Start(blocks, bpos) - 1;
      BlockFits(table, blocks, bpos);
      NextBlock();
    }

    /** `next_inner`: one step forward in the flat sequence, onto the first entry when just created; past
        either end it stays. */
    method NextInner()
      requires Valid() && (Placed() || Unmoved())
      modifies this, bi
      ensures Valid() && Placed() && (bi == old(bi) || fresh(bi))
      ensures at == if old(OnEntry() || Unmoved()) then old(at) + 1 else old(at)
      ensures err == None || err == Some(EOF)
    {
      hide Valid, BlockIterator.Valid, Flatten, Start;
      Counts();
      err := None;
      if bpos >= |table.index.offsets| {
        err := Some(EOF);
        return;
      }
      if bi == null || bi.data == [] {
        StartEnds(blocks);
        EnterBlock(false);
        return;
      }
      FlatSizes(blocks, bpos);
      BlockNext();
      if bi.err.Some? {
        LeaveForward();
      } else {
        at := at + 1;
      }
    }

    /** Between blocks while moving backward. */
    ghost predicate AfterBlock()
      reads this, bi
    {
      && bi != null && !bi.Loaded()
      && if bpos == USIZE_MAX then at == 0 else bpos < |blocks| && at == Start(blocks, bpos + 1)
    }

    /** `prev_inner` with no block loaded. */
    method PrevBlock()
      requires Valid() && AfterBlock()
      modifies this`err, this`at, this`bi, bi
      ensures Valid() && (bi == old(bi) || fresh(bi))
      ensures if bpos == USIZE_MAX then BeforeStart() && err == Some(EOF) else OnEntry()
      ensures at == old(at) - 1
    {
      hide Valid, BlockIterator.Valid, BlockIterator.On, Flatten, Start;
      Counts();
      err := None;
      if bpos == USIZE_MAX {
        err := Some(EOF);
        at := -1;
      } else {
        FlatSizes(blocks, bpos);
        EnterBlock(true);
      }
    }

    /** `prev_inner` past the first entry of a block; the block number wraps below zero. */
    method LeaveBackward()
      requires Valid() && InBlock()
      modifies this, bi
      ensures Valid() && (bi == old(bi) || fresh(bi))
      ensures if old(bpos) == 0 then BeforeStart() && err == Some(EOF) else OnEntry()
      ensures at == Start(blocks, old(bpos)) - 1
    {
      hide BlockIterator.Valid, BlockIterator.On, Holds, Sorted, Flatten, Start;
      Counts();
      StartEnds(blocks);
      bpos := if bpos == 0 then USIZE_MAX else bpos - 1;
      bi.Clear();
      at := if bpos == USIZE_MAX then 0 else Start(blocks, bpos + 1);
      PrevBlock();
    }

    /** `prev_inner`: one step back in the flat sequence. Before the start it stays; from past the end it
        finds the last entry again after a seek, but reports an error after a `next`, which has moved `bpos`
        to a block that does not exist. Just created it goes to the last entry of the first block. */
    method PrevInner()
      requires Valid() && (Placed() || Unmoved())
      modifies this, bi
      ensures Valid() && Placed() && (bi == old(bi) || fresh(bi))
      ensures blocks != []
      ensures at == if old(Unmoved()) then |blocks[0]| - 1
                    else if old(BeforeStart()) || old(bpos) == |blocks| then old(at) else old(at) - 1
      ensures err == if old(bpos) == |blocks| then Some(Failed(BlockIndex)) else if at < 0 then Some(EOF) else None
    {
      hide Valid, BlockIterator.Valid, Flatten, Start;
      Counts();
      err := None;
      if bpos == USIZE_MAX {
        err := Some(EOF);
        return;
      }
      if bi == null || bi.data == [] {
        StartEnds(blocks);
        EnterBlock(true);
        return;
      }
      FlatSizes(blocks, bpos);
      BlockPrev();
      if bi.err.Some? {
        LeaveBackward();
      } else {
        at := at - 1;
      }
    }

    lemma EntryHere()
      requires Valid() && OnEntry()
      ensures 0 <= at < |Flat()| && bi.key == Flat()[at].key && bi.val == Flat()[at].value
    {
      hide Holds, Sorted, Flatten, Start, BlockIterator.Valid;
      FlatAt(blocks, bpos, bi.idx);
    }

    /** After a search the key buffer holds the target only if the cursor stands on it. */
    lemma StaleKey(target: Key)
      requires Valid() && (OnEntry() || PastEnd()) && IsSeek(false, Flat(), target, at) && bi.key == target && InBlock()
      ensures OnEntry()
    {
      hide Before;
      if PastEnd() {
        var i :| 0 <= i < |bi.items| && bi.key == bi.items[i].key;
        FlatAt(blocks, bpos, i);
        assert Ahead(false, Flat()[Start(blocks, bpos) + i].key, target);
        KeyOrder();
      }
    }

    /** `seek_for_prev`: the last entry at or below the target, in the flat sequence. */
    method SeekForPrev(target: Key)
      requires Valid()
      modifies this, bi
      ensures Valid() && (OnEntry() || BeforeStart()) && (bi == old(bi) || fresh(bi))
      ensures IsSeek(true, Reverse(Flat()), target, |Flat()| - 1 - at)
    {
      hide Valid, BlockIterator.Valid, Flatten, Start, IsSeek, Reverse, Before;
      SeekFrom(target);
      FlatSorted();
      ghost var n := at;
      if bi.key != target {
        if OnEntry() { EntryHere(); }
        PrevInner();
        LandBefore(Flat(), target, n);
      } else {
        StaleKey(target);
        EntryHere();
        LandOn(Flat(), target, n);
      }
    }

    // ---------------------------------------------------------- AgateIterator

    ghost function Items(): seq<Item> { Directed(reversed, Flat()) }

    ghost function Pos(): int
      reads this
    {
      if reversed then |Flat()| - 1 - at else at
    }

    /** Rewound or sought at least once, and never walked off the wrong end. */
    ghost predicate Ready()
      reads this, bi
    {
      Valid() && Placed() && 0 <= Pos() <= |Items()|
    }

    lemma ReadyFacts()
      requires Ready()
      ensures OnEntry() <==> Pos() < |Items()|
      ensures err == None <==> Pos() < |Items()|
      ensures Pos() < |Items()| ==> bi.key == Items()[Pos()].key && bi.val == Items()[Pos()].value
    {
      hide Valid, Flatten, Start;
      if OnEntry() { EntryHere(); }
    }

    predicate HasEntry()
      reads this
    {
      err == None
    }

    method Key() returns (key: Bytes)
      requires Ready() && Pos() < |Items()|
      ensures key == Items()[Pos()].key
    {
      ReadyFacts();
      key := bi.key;
    }

    method Val() returns (val: Bytes)
      requires Ready() && Pos() < |Items()|
      ensures val == Items()[Pos()].value
    {
      ReadyFacts();
      val := bi.val;
    }

    method Next()
      requires Ready() || (Valid() && Unmoved())
      modifies this, bi
      ensures Ready() && (bi == old(bi) || fresh(bi)) && blocks != []
      ensures Pos() == if old(Unmoved()) then (if reversed then |Items()| - |blocks[0]| else 0)
                       else if old(Pos()) < |Items()| then old(Pos()) + 1 else |Items()|
      ensures HasEntry() <==> Pos() < |Items()|
    {
      hide Valid, Flatten, Start, BlockIterator.Valid;
      Counts();
      StartEnds(blocks);
      FlatSizes(blocks, 0);
      if bi != null { ReadyFacts(); }
      if !reversed { NextInner(); } else { PrevInner(); }
      PlacedBounds();
      ReadyFacts();
    }

    lemma PlacedBounds()
      requires Valid() && Placed()
      ensures -1 <= at <= |Flat()|
    {
      if OnEntry() { EntryHere(); }
    }

    method Rewind()
      requires Valid()
      modifies this, bi
      ensures Ready() && (bi == old(bi) || fresh(bi)) && Pos() == 0
      ensures HasEntry() <==> Pos() < |Items()|
    {
      hide Valid, Flatten, Start, BlockIterator.Valid;
      if !reversed { SeekToFirst(); } else { SeekToLast(); }
      PlacedBounds();
      ReadyFacts();
    }

    method Seek(target: Key)
      requires Valid()
      modifies this, bi
      ensures Ready() && (bi == old(bi) || fresh(bi)) && IsSeek(reversed, Items(), target, Pos())
      ensures HasEntry() <==> Pos() < |Items()|
    {
      hide Valid, Flatten, Start, BlockIterator.Valid, IsSeek;
      if !reversed { SeekFrom(target); } else { SeekForPrev(target); }
      PlacedBounds();
      if reversed { assert at < |Flat()| by { if OnEntry() { EntryHere(); } } }
      ReadyFacts();
    }

    lemma FlatSorted()
      requires Valid()
      ensures Sorted(false, Flat())
    {}
  }

  lemma LandBefore(flat: seq<Item>, target: Key, n: int)
    requires IsSeek(false, flat, target, n) && (n < |flat| ==> flat[n].key != target) && Sorted(false, flat)
    ensures IsSeek(true, Reverse(flat), target, |flat| - n)
  {
    hide Before;
    KeyOrder();
    var r := Reverse(flat);
    forall i | 0 <= i < |flat| ensures r[i] == flat[|flat| - 1 - i] {}
    forall i | n <= i < |flat| ensures Before(target, flat[i].key) {
      assert !Ahead(false, flat[i].key, target);
      assert i > n ==> Ahead(false, flat[n].key, flat[i].key);
      assert !Ahead(false, flat[n].key, target);
    }
    forall i | 0 <= i < n ensures !Before(target, flat[i].key) {
      assert Ahead(false, flat[i].key, target);
    }
  }

  lemma LandOn(flat: seq<Item>, target: Key, n: int)
    requires IsSeek(false, flat, target, n) && n < |flat| && flat[n].key == target && Sorted(false, flat)
    ensures IsSeek(true, Reverse(flat), target, |flat| - 1 - n)
  {
    hide Before;
    KeyOrder();
    var r := Reverse(flat);
    forall i | 0 <= i < |flat| ensures r[i] == flat[|flat| - 1 - i] {}
    forall i | n < i < |flat| ensures Before(target, flat[i].key) {
      assert Ahead(false, flat[n].key, flat[i].key);
    }
    forall i | 0 <= i <= n ensures !Before(target, flat[i].key) {
      assert i < n ==> Ahead(false, flat[i].key, target);
    }
  }

  lemma BlockFits(t: Table, blocks: seq<seq<Item>>, b: nat)
    requires Holds(t, blocks)
    ensures b < |blocks| ==> Start(blocks, b) < |Flatten(blocks)|
  {
    if b < |blocks| {
      BlockRead(t, blocks, b);
      FlatSizes(blocks, b);
    }
  }

  /** The predicate of `seek_from`'s search over the block index. */
  function IndexAbove(t: Table, target: Key): nat -> bool {
    (b: nat) => b < |t.index.offsets| && |t.index.offsets[b].key| >= TS_LEN && Before(target, t.index.offsets[b].key)
  }

  lemma IndexMonotone(t: Table, blocks: seq<seq<Item>>, target: Key)
    requires Holds(t, blocks) && Sorted(false, Flatten(blocks))
    ensures |t.index.offsets| == |blocks| > 0
    ensures Monotone(|blocks|, IndexAbove(t, target))
    ensures forall b: nat {:trigger IndexAbove(t, target)(b)} :: b < |blocks| ==>
              (IndexAbove(t, target)(b) <==> Before(target, FirstKey(blocks, b)))
  {
    hide Before, FirstKey, BlockOf, Flatten, Sorted, Holds, ReadBlock;
    BlockRead(t, blocks, 0);
    forall b: nat | b < |blocks| ensures IndexAbove(t, target)(b) <==> Before(target, FirstKey(blocks, b)) {
      BlockRead(t, blocks, b);
    }
    HoldsOk(t, blocks);
    forall a: nat, b: nat | a < b < |blocks| && IndexAbove(t, target)(a) ensures IndexAbove(t, target)(b) {
      FirstKeysOrder(blocks, b);
      BeforeTransitive(target, FirstKey(blocks, a), FirstKey(blocks, b));
    }
  }

  lemma HoldsOk(t: Table, blocks: seq<seq<Item>>)
    requires Holds(t, blocks)
    ensures BlocksOk(blocks)
  {
    hide BlockOf, ReadBlock, BlockOk;
  }

  ghost function FirstKey(blocks: seq<seq<Item>>, b: int): Key
    requires 0 <= b < |blocks|
  {
    if blocks[b] == [] then Zeroed(TS_LEN) else blocks[b][0].key
  }

  lemma BlockRead(t: Table, blocks: seq<seq<Item>>, b: nat)
    requires Holds(t, blocks)
    ensures |t.index.offsets| == |blocks| > 0
    ensures if b < |blocks| then
              && blocks[b] != [] && BlockOk(blocks[b]) && ReadBlock(t, b) == Ok(BlockOf(t.sum, blocks[b]))
              && t.index.offsets[b].key == FirstKey(blocks, b)
            else ReadBlock(t, b) == Err(BlockIndex)
  {
    hide BlockOf, ParseBlock, VerifyBlock;
  }

  lemma BlockSorted(blocks: seq<seq<Item>>, b: nat)
    requires Sorted(false, Flatten(blocks)) && b < |blocks|
    ensures Sorted(false, blocks[b])
  {
    hide Ahead, Flatten, Start;
    forall i, j | 0 <= i < j < |blocks[b]| ensures Ahead(false, blocks[b][i].key, blocks[b][j].key) {
      FlatAt(blocks, b, i);
      FlatAt(blocks, b, j);
    }
  }

  lemma FlatFirst(blocks: seq<seq<Item>>, b: int)
    requires 0 <= b < |blocks| && blocks[b] != []
    ensures Start(blocks, b) < |Flatten(blocks)| && Flatten(blocks)[Start(blocks, b)].key == FirstKey(blocks, b)
  {
    FlatAt(blocks, b, 0);
  }

  lemma {:induction false} StartGrows(blocks: seq<seq<Item>>, a: int, b: int)
    requires BlocksOk(blocks) && 0 <= a < b <= |blocks|
    ensures Start(blocks, a) < Start(blocks, b) <= |Flatten(blocks)|
    decreases b - a
  {
    hide BlocksOk, Flatten, Start;
    BlocksNotEmpty(blocks);
    FlatSizes(blocks, b - 1);
    if a < b - 1 { StartGrows(blocks, a, b - 1); }
  }

  lemma FirstKeysOrder(blocks: seq<seq<Item>>, h: int)
    requires Sorted(false, Flatten(blocks)) && BlocksOk(blocks) && 0 <= h < |blocks|
    ensures forall k :: 0 <= k < h ==> Before(FirstKey(blocks, k), FirstKey(blocks, h))
    ensures forall k :: h < k < |blocks| ==> Before(FirstKey(blocks, h), FirstKey(blocks, k))
  {
    hide Before, FirstKey, BlockOk;
    forall a, b | 0 <= a < b < |blocks| ensures Before(FirstKey(blocks, a), FirstKey(blocks, b)) {
      BlocksNotEmpty(blocks);
      FlatFirst(blocks, a);
      FlatFirst(blocks, b);
      StartGrows(blocks, a, b);
      assert Ahead(false, Flatten(blocks)[Start(blocks, a)].key, Flatten(blocks)[Start(blocks, b)].key);
    }
  }

  lemma BlocksNotEmpty(blocks: seq<seq<Item>>)
    requires BlocksOk(blocks)
    ensures forall i :: 0 <= i < |blocks| ==> blocks[i] != []
  {}

  /** The block picked by the index is the one that decides a search of the flat sequence. */
  lemma SeekLifts(blocks: seq<seq<Item>>, b: int, target: Key, n: int)
    requires Sorted(false, Flatten(blocks)) && BlocksOk(blocks) && 0 <= b < |blocks|
    requires IsSeek(false, blocks[b], target, n) && !Before(target, FirstKey(blocks, b))
    requires b + 1 < |blocks| ==> Before(target, FirstKey(blocks, b + 1))
    ensures IsSeek(false, Flatten(blocks), target, Start(blocks, b) + n)
    ensures n == |blocks[b]| && b + 1 == |blocks| ==> Start(blocks, b) + n == |Flatten(blocks)|
  {
    hide Before, FirstKey, BlocksOk, Flatten, Start;
    var flat, s := Flatten(blocks), Start(blocks, b);
    BlocksNotEmpty(blocks);
    FlatSizes(blocks, b);
    FlatFirst(blocks, b);
    if s > 0 {
      assert Ahead(false, flat[s - 1].key, flat[s].key);
      BeforeUpTo(flat[s - 1].key, flat[s].key, target);
    }
    if b + 1 < |blocks| {
      FlatFirst(blocks, b + 1);
      BeforeOneWay(target, FirstKey(blocks, b + 1));
    }
    forall j | 0 <= j < |blocks[b]| ensures flat[s + j] == blocks[b][j] { FlatAt(blocks, b, j); }
    SeekJoins(false, flat, target, s, blocks[b], n);
  }

  lemma FirstAbove(blocks: seq<seq<Item>>, b: int, target: Key, n: int)
    requires 0 <= b < |blocks| && blocks[b] != [] && IsSeek(false, blocks[b], target, n) && Before(target, FirstKey(blocks, b))
    ensures n == 0
  {
    hide Before;
    KeyOrder();
    var first := blocks[b][0];
    assert !Ahead(false, first.key, target);
  }

  lemma SeekAtStart(blocks: seq<seq<Item>>, target: Key, n: int)
    requires Sorted(false, Flatten(blocks)) && BlocksOk(blocks) && 0 < |blocks|
    requires IsSeek(false, blocks[0], target, n) && Before(target, FirstKey(blocks, 0))
    ensures n == 0 && IsSeek(false, Flatten(blocks), target, 0) && Start(blocks, 0) == 0
  {
    hide Before, FirstKey, BlockOk;
    BlocksNotEmpty(blocks);
    FirstAbove(blocks, 0, target, n);
    KeyOrder();
    FlatFirst(blocks, 0);
    var flat := Flatten(blocks);
    assert blocks[..0] == [];
    forall p | 0 <= p < |flat| ensures !Ahead(false, flat[p].key, target) {
      assert p > 0 ==> Ahead(false, flat[0].key, flat[p].key);
    }
  }
}
