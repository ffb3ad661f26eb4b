/** `BlockIterator` of src/table/iterator.rs: a cursor in one block that rebuilds its key in place. */
module BlockIterators {
  import opened Wrappers
  import opened Bytes
  import opened Keys
  import opened SstFormat
  import opened Cursors

  const USIZE_MAX: nat := U64 - 1

  datatype IteratorError = EOF | Failed(error: TableError)

  datatype SeekPos = Origin | Current

  class BlockIterator {
    var idx: nat
    var baseKey: Bytes
    var key: Bytes
    var val: Bytes
    var data: Bytes
    var block: Block
    var pervOverlap: nat
    var err: Option<IteratorError>

    /** What the block was built from. */
    ghost var items: seq<Item>
    ghost const sum: Summer

    /** The key buffer and the base key agree up to `pervOverlap`, whatever entries were visited before. */
    ghost predicate Valid()
      reads this
    {
      && BlockOk(items) && block == BlockOf(sum, items)
      && (data == [] || data == DataBytes(items, |items|))
      && (baseKey == [] || baseKey == items[0].key)
      && pervOverlap <= |items[0].key| && pervOverlap <= |key| && key[..pervOverlap] == items[0].key[..pervOverlap]
      && (key == [] || exists i :: 0 <= i < |items| && key == items[i].key)
    }

    /** On entry `idx`, holding its full key and value. */
    ghost predicate On()
      reads this
    {
      err == None && idx < |items| && key == items[idx].key && val == items[idx].value
    }

    ghost predicate Loaded()
      reads this
    {
      data != []
    }

    constructor (sum: Summer, block: Block, ghost items: seq<Item>)
      requires BlockOk(items) && block == BlockOf(sum, items)
      ensures Valid() && Loaded() && this.items == items && this.sum == sum
      ensures err == None && idx == 0
    {
      this.sum := sum;
      this.items := items;
      this.block := block;
      this.err := None;
      baseKey, key, val := [], [], [];
      data := block.data[..block.entriesIndexStart];
      pervOverlap, idx := 0, 0;
      new;
      DataNotEmpty(items);
    }

    /** Replace the block and start over. */
    method SetBlock(block: Block, ghost items: seq<Item>)
      requires BlockOk(items) && block == BlockOf(sum, items)
      modifies this
      ensures Valid() && Loaded() && this.items == items
      ensures err == None && idx == 0
    {
      hide DataBytes, BlockOk;
      err := None;
      idx := 0;
      baseKey := [];
      pervOverlap := 0;
      key := [];
      val := [];
      data := block.data[..block.entriesIndexStart];
      this.block := block;
      this.items := items;
      DataNotEmpty(items);
    }

    /** The key after a move depends on the target entry alone, not on the moves before it. */
    method SetIdx(i: nat)
      requires Valid() && Loaded()
      modifies this
      ensures Valid() && Loaded() && items == old(items) && idx == i
      ensures if i < |items| then On() else err == Some(EOF) && key == old(key)
    {
      hide DataBytes, BlockOf, HeaderOf, BlockOk;
      BlockSize(sum, items);
      idx := i;
      if i >= |block.entryOffsets| {
        err := Some(EOF);
        return;
      }
      err := None;
      if baseKey == [] {
        BaseAt(items);
        var (_, diff) := HeaderOf(data);
        baseKey := data[HEADER_SIZE..HEADER_SIZE + diff];
      }
      LoadEntry();
    }

    /** The second half of `set_idx`: cut the entry out, then patch the key buffer in place. */
    method LoadEntry()
      requires Valid() && Loaded() && idx < |items| && baseKey == items[0].key && err == None
      modifies this`key, this`val, this`pervOverlap
      ensures Valid() && On()
    {
      hide DataBytes, BlockOf, EntryBytes, OverlapWith, HeaderOf, BlockOk, BaseFor;
      EntryFacts(sum, items, idx);
      var start := block.entryOffsets[idx];
      var end := if idx + 1 == |block.entryOffsets| then |data| else block.entryOffsets[idx + 1];
      var entry := data[start..end];
      var (overlap, diff) := HeaderOf(entry);
      entry := entry[HEADER_SIZE..];
      RebuildOk(key, items[0].key, pervOverlap, overlap, items[idx].key);
      if overlap > pervOverlap {
        key := key[..pervOverlap];
        key := key + baseKey[pervOverlap..overlap];
      }
      pervOverlap := overlap;
      var diffKey := entry[..diff];
      key := key[..overlap] + diffKey;
      val := entry[diff..];
    }

    /** `seek`: the binary search moves the cursor while it probes; it ends on the first entry at or
        above the key (from the current one on, for SeekPos::Current). */
    method Seek(target: Key, whence: SeekPos)
      requires Valid() && Loaded() && Sorted(false, items)
      modifies this
      ensures Valid() && Loaded() && items == old(items)
      ensures var start := if whence.Origin? then 0 else old(idx);
              && (forall i :: 0 <= i < |items| && i < idx ==> i < start || Before(items[i].key, target))
              && (forall i :: idx <= i < |items| ==> start <= i && !Before(items[i].key, target))
      ensures whence.Origin? ==> IsSeek(false, items, target, idx)
      ensures if idx < |items| then On() else err == Some(EOF) && idx == |items|
    {
      hide Before, BlockOk, BlockOf, DataBytes, Sorted;
      ghost var all := items;
      err := None;
      var start := match whence case Origin => 0 case Current => idx;
      var i, j := 0, EntryCount();
      while i < j
        invariant Valid() && Loaded() && items == all
        invariant 0 <= i <= j <= |all|
        invariant forall k :: 0 <= k < i ==> k < start || Before(all[k].key, target)
        invariant j < |all| ==> start <= j
        invariant forall k :: j <= k < |all| ==> !Before(all[k].key, target)
      {
        var h := (i + j) / 2;
        if h < start {
          i := h + 1;
        } else {
          SetIdx(h);
          assert key == all[h].key;
          if Before(key, target) {
            DecidedBelow(all, target, h);
            i := h + 1;
          } else {
            DecidedAbove(all, target, h);
            j := h;
          }
        }
      }
      SetIdx(i);
    }

    function EntryCount(): (n: nat)
      requires Valid()
      reads this
      ensures n == |items|
    {
      |block.entryOffsets|
    }

    /** `data.clear()`, how the table iterator marks a block as used up. */
    method Clear()
      requires Valid()
      modifies this`data
      ensures Valid() && !Loaded()
    {
      data := [];
    }

    method SeekToFirst()
      requires Valid() && Loaded()
      modifies this
      ensures Valid() && Loaded() && items == old(items) && idx == 0 && On()
    {
      SetIdx(0);
    }

    method SeekToLast()
      requires Valid() && Loaded()
      modifies this
      ensures Valid() && Loaded() && items == old(items) && idx == |items| - 1 && On()
    {
      if EntryCount() == 0 {
        assert false;
      } else {
        SetIdx(EntryCount() - 1);
      }
    }

    method Next()
      requires Valid() && Loaded()
      modifies this
      ensures Valid() && Loaded() && items == old(items) && idx == old(idx) + 1
      ensures if idx < |items| then On() else err == Some(EOF)
    {
      SetIdx(idx + 1);
    }

    method Prev()
      requires Valid() && Loaded()
      modifies this
      ensures Valid() && Loaded() && items == old(items)
      ensures if old(idx) == 0 then idx == USIZE_MAX && err == Some(EOF)
              else idx == old(idx) - 1 && if idx < |items| then On() else err == Some(EOF)
    {
      if idx == 0 {
        idx := USIZE_MAX;
        err := Some(EOF);
      } else {
        SetIdx(idx - 1);
      }
    }
  }

  lemma DataNotEmpty(items: seq<Item>)
    requires BlockOk(items)
    ensures DataBytes(items, |items|) != []
  {
    EntryAt(items, 0, |items|);
  }

  lemma BlockSize(sum: Summer, items: seq<Item>)
    ensures |BlockOf(sum, items).entryOffsets| == |items|
  {}

  lemma EntryParts(items: seq<Item>, i: nat)
    requires BlockOk(items) && i < |items|
    ensures var e, n := EntryBytes(items, i), OverlapWith(BaseFor(items, i), items[i].key);
            && HeaderOf(e) == (n, |items[i].key| - n)
            && n <= |items[0].key| && items[i].key[..n] == items[0].key[..n]
            && e[HEADER_SIZE..] == items[i].key[n..] + items[i].value
  {
    hide LE32, FromLE32, DataBytes;
    var e, n := EntryBytes(items, i), OverlapWith(BaseFor(items, i), items[i].key);
    assert items[i] in items && ItemOk(items[i]);
    HeaderRoundTrip(n, |items[i].key| - n, items[i].key[n..] + items[i].value);
  }

  /** Entry i of a block, as its offsets cut it out. */
  lemma EntryFacts(sum: Summer, items: seq<Item>, i: nat)
    requires BlockOk(items) && i < |items|
    ensures var b, data, n := BlockOf(sum, items), DataBytes(items, |items|), OverlapWith(BaseFor(items, i), items[i].key);
            && |b.entryOffsets| == |items|
            && var end := if i + 1 == |items| then |data| else b.entryOffsets[i + 1];
               && b.entryOffsets[i] <= end <= |data|
               && var e := data[b.entryOffsets[i]..end];
                  && |e| >= HEADER_SIZE && HeaderOf(e) == (n, |items[i].key| - n)
                  && e[HEADER_SIZE..] == items[i].key[n..] + items[i].value
                  && n <= |items[0].key| && items[i].key[..n] == items[0].key[..n]
  {
    hide DataBytes, HeaderOf, EntryBytes, OverlapWith;
    EntryAt(items, i, |items|);
    EntryParts(items, i);
  }

  /** The first entry of a block spells out the base key. */
  lemma BaseAt(items: seq<Item>)
    requires BlockOk(items)
    ensures var data := DataBytes(items, |items|);
            && |data| >= HEADER_SIZE + |items[0].key| && HeaderOf(data) == (0, |items[0].key|)
            && data[HEADER_SIZE..HEADER_SIZE + |items[0].key|] == items[0].key
  {
    assert Offset(items, 0) == 0;
    hide DataBytes, EntryBytes, FromLE32, CommonPrefix;
    var data, it, e := DataBytes(items, |items|), items[0], EntryBytes(items, 0);
    EntryAt(items, 0, |items|);
    EntryParts(items, 0);
    assert e[HEADER_SIZE..] == it.key + it.value by { assert it.key[0..] == it.key; }
    PrefixHeader(data, e, it.key, it.value);
  }

  lemma PrefixHeader(data: Bytes, e: Bytes, key: Bytes, value: Bytes)
    requires |e| >= HEADER_SIZE && |e| <= |data| && data[..|e|] == e && e[HEADER_SIZE..] == key + value
    ensures |data| >= HEADER_SIZE + |key| && HeaderOf(data) == HeaderOf(e) && data[HEADER_SIZE..HEADER_SIZE + |key|] == key
  {
    hide FromLE32;
    assert data[..HEADER_SIZE] == e[..HEADER_SIZE];
    assert data[HEADER_SIZE..HEADER_SIZE + |key|] == e[HEADER_SIZE..][..|key|];
  }

  /** The incremental rebuild: keep what the old key shares with the base, take the rest from the base,
      then append the stored difference. */
  lemma RebuildOk(key: Bytes, base: Bytes, perv: nat, overlap: nat, full: Bytes)
    requires perv <= |key| && perv <= |base| && key[..perv] == base[..perv]
    requires overlap <= |base| && overlap <= |full| && full[..overlap] == base[..overlap]
    ensures var k := if overlap > perv then key[..perv] + base[perv..overlap] else key;
            |k| >= overlap && k[..overlap] + full[overlap..] == full && k[..overlap] == base[..overlap]
  {
    if overlap > perv {
      assert key[..perv] + base[perv..overlap] == base[..overlap];
    } else {
      assert key[..overlap] == key[..perv][..overlap] == base[..overlap];
    }
    assert full == full[..overlap] + full[overlap..];
  }
}
