/** The SST builder of src/table/builder.rs. */
module Builders {
  import opened Wrappers
  import opened Bytes
  import opened Keys
  import opened Values
  import opened Proto
  import opened SstFormat
  import opened SstTable
  import opened Cursors
  import opened Util
  import Bloom

  /** The stored form of an added pair. */
  function ItemOf(key: Key, v: Value): Item { Item(key, Encode(v)) }

  ghost function Hashes(hash: Bytes -> nat, items: seq<Item>): (hs: seq<nat>)
    ensures |hs| == |items|
  {
    seq<nat>(|items|, i requires 0 <= i < |items| => hash(UserKey(items[i].key)))
  }

  /** What the size estimate keeps: with two or more entries the finished block fits the limit. */
  ghost predicate WithinLimit(limit: nat, items: seq<Item>) {
    |items| >= 2 ==> Offset(items, |items|) + 4 * |items| + 4 + 6 + 4 <= limit
  }

  class Builder {
    const blockSize: nat
    const sum: Summer
    const hash: Bytes -> nat

    var buf: Bytes
    var baseKey: Bytes
    var baseOffset: nat
    var entryOffsets: seq<nat>
    var index: TableIndex
    var keyHashes: seq<nat>

    /** The finished blocks and the open one. */
    ghost var blocks: seq<seq<Item>>
    ghost var current: seq<Item>

    ghost function All(): seq<Item>
      reads this
    {
      Flatten(blocks) + current
    }

    ghost predicate Valid()
      reads this
    {
      && SummerOk(sum) && (forall b :: hash(b) < U32)
      && BlocksOk(blocks) && ItemsOk(current) && |buf| < U32
      && (entryOffsets != [] ==> |buf| + 4 * |entryOffsets| + 14 < U32)
      && buf == BlocksBytes(sum, blocks) + DataBytes(current, |current|)
      && baseOffset == |BlocksBytes(sum, blocks)|
      && baseKey == (if current == [] then [] else current[0].key)
      && entryOffsets == Offsets(current)
      && index == TableIndex(IndexEntries(sum, blocks), [], index.estimatedSize, 0, 0) && index.estimatedSize < U32
      && keyHashes == Hashes(hash, All())
      && (forall i :: 0 <= i < |blocks| ==> WithinLimit(blockSize % U32, blocks[i]))
      && WithinLimit(blockSize % U32, current)
    }

    constructor (blockSize: nat, sum: Summer, hash: Bytes -> nat)
      requires SummerOk(sum) && forall b :: hash(b) < U32
      ensures Valid() && All() == [] && buf == [] && entryOffsets == [] && index == EMPTY_INDEX && blocks == [] && current == []
      ensures this.sum == sum && this.hash == hash && this.blockSize == blockSize
    {
      this.blockSize, this.sum, this.hash := blockSize, sum, hash;
      buf, baseKey, baseOffset, entryOffsets, index, keyHashes := [], [], 0, [], EMPTY_INDEX, [];
      blocks, current := [], [];
    }

    /** `should_finish_block`'s estimate of the block with one more entry. */
    function Estimate(key: Key, value: Value): nat
      requires baseOffset <= |buf|
      reads this
    {
      |buf| - baseOffset + 6 + |key| + EncodedSize(value) + ((|entryOffsets| + 1) * 4 + 4 + 8 + 4)
    }

    /** `should_finish_block` */
    predicate Closes(key: Key, value: Value)
      requires baseOffset <= |buf|
      reads this
    {
      entryOffsets != [] && Estimate(key, value) > blockSize % U32
    }

    /** The assertion on sizes; a first entry, which the source does not check, has to leave room for
      * finishing its block. */
    predicate SizeOk(key: Key, value: Value)
      requires baseOffset <= |buf|
      reads this
    {
      if entryOffsets == [] then |buf| + 22 + |key| + |Encode(value)| < U32 else |buf| + Estimate(key, value) < U32 - 1
    }

    /** Exactly when `add` returns: sizes stay in 32 bits, and so does the sum in the index. */
    ghost predicate Accepts(key: Key, value: Value, vlogLen: nat)
      requires Valid()
      reads this
    {
      && SizeOk(key, value)
      && index.estimatedSize + Counted(if Closes(key, value) then [] else baseKey, key, value, vlogLen) < U32
    }

    /** The part of the key that the base key does not share. */
    method DiffKey(key: Key) returns (diff: Bytes)
      ensures diff == key[OverlapWith(baseKey, key)..]
    {
      if baseKey == [] { return key; }
      diff := BytesDiff(baseKey, key);
    }

    /** `add_helper`; false when the sum in the index overflows. */
    method AddHelper(key: Key, v: Value, vlogLen: nat) returns (ok: bool)
      requires Valid() && |key| <= MAX_KEY && |buf| + 4 + |key| + |Encode(v)| + 4 * (|entryOffsets| + 1) + 14 < U32
      requires WithinLimit(blockSize % U32, current + [ItemOf(key, v)])
      modifies this
      ensures ok <==> old(index.estimatedSize + Counted(baseKey, key, v, vlogLen)) < U32
      ensures ok ==> Valid() && blocks == old(blocks) && current == old(current) + [ItemOf(key, v)]
      ensures ok ==> |buf| <= old(|buf|) + 4 + |key| + |Encode(v)| && |entryOffsets| == old(|entryOffsets|) + 1
      ensures ok ==> index.estimatedSize == old(index.estimatedSize + Counted(baseKey, key, v, vlogLen))
    {
      hide BlocksBytes, IndexEntries, BlockBytes, BlockOk, WithinLimit, DataBytes, Offsets, Hashes, Flatten, EntryOf, HeaderBytes, Encode, EncodedSize, UserKey, SummerOk, OverlapWith, CommonPrefix, Counted;
      ghost var was, it := current, ItemOf(key, v);
      AppendEntry(was, it);
      HashesAppend(hash, All(), it);
      assert Flatten(blocks) + was + [it] == Flatten(blocks) + (was + [it]);
      var diffKey := DiffKey(key);
      CountedIs(baseKey, key, v, vlogLen, diffKey);
      EntryFromDiff(baseKey, key, v, diffKey);
      Rejoin(BlocksBytes(sum, blocks), DataBytes(was, |was|), HeaderBytes(|key| - |diffKey|, |diffKey|), diffKey, Encode(v));
      var offset: nat := |buf| - baseOffset;
      keyHashes := keyHashes + [hash(UserKey(key))];
      if baseKey == [] { baseKey := key; }
      entryOffsets := entryOffsets + [offset];
      buf := buf + HeaderBytes(|key| - |diffKey|, |diffKey|) + diffKey + Encode(v);
      current := current + [it];
      var total := index.estimatedSize + EncodedSize(v) + |diffKey| + 4 + vlogLen;
      if total >= U32 { return false; }
      index := index.(estimatedSize := total);
      ok := true;
    }

    /** A finished block at the end of the buffer, its working state not yet cleared. */
    ghost predicate Sealed()
      reads this
    {
      && SummerOk(sum) && (forall b :: hash(b) < U32)
      && BlocksOk(blocks) && BlockOk(current) && |buf| < U32
      && buf == BlocksBytes(sum, blocks + [current])
      && index == TableIndex(IndexEntries(sum, blocks + [current]), [], index.estimatedSize, 0, 0) && index.estimatedSize < U32
      && keyHashes == Hashes(hash, All())
      && (forall i :: 0 <= i < |blocks| ==> WithinLimit(blockSize % U32, blocks[i]))
      && WithinLimit(blockSize % U32, current)
    }

    /** `finish_block`: offsets, count and checksum after the entries, and an index entry for the block. */
    method FinishBlock()
      requires Valid()
      modifies this`buf, this`index
      ensures if current == [] then buf == old(buf) && index == old(index)
              else Sealed() && |buf| <= old(|buf| + 4 * |entryOffsets|) + 14 && index.estimatedSize == old(index.estimatedSize)
    {
      hide IndexEntries, DataBytes, Hashes, Flatten, EncodeChecksum, WithinLimit, BlocksBytes, OffsetBytes, BE32, BlocksOk, ItemsOk;
      if entryOffsets == [] { return; }
      ghost var data, before := DataBytes(current, |current|), BlocksBytes(sum, blocks);
      var tail := OffsetsLE(entryOffsets);
      tail := tail + BE32(|entryOffsets|);
      Regroup(before, data, tail);
      buf := buf + tail;
      var body := buf[baseOffset..];
      TrailerBytes(sum, body);
      Regroup(before, body, Trailer(sum, body));
      buf := buf + Trailer(sum, body);
      BlocksExtend(sum, blocks, current);
      index := index.(offsets := index.offsets + [BlockOffset(baseKey, baseOffset, |buf| - baseOffset)]);
    }

    /** Clearing the working state after a finished block. */
    method CloseBlock()
      requires Sealed()
      modifies this
      ensures Valid() && blocks == old(blocks) + [old(current)] && current == [] && All() == old(All()) && buf == old(buf)
      ensures entryOffsets == [] && baseKey == [] && index == old(index)
    {
      hide BlocksBytes, IndexEntries, BlockBytes, BlockOk, WithinLimit, Hashes, DataBytes, Offsets, Flatten;
      ghost var all := All();
      FlattenExtend(blocks, current);
      baseKey := [];
      baseOffset := |buf|;
      entryOffsets := [];
      blocks, current := blocks + [current], [];
      EmptyBlock();
      assert All() == all;
    }

    /** The estimate dominates what the entry will really take, so an admitted entry keeps the block within the limit. */
    lemma EstimateCovers(key: Key, value: Value)
      requires Valid() && |key| <= MAX_KEY && value.expiresAt < U64 && SizeOk(key, value)
      ensures !Closes(key, value) ==> WithinLimit(blockSize % U32, current + [ItemOf(key, value)])
      ensures |buf| + 4 + |key| + |Encode(value)| + 4 * (|entryOffsets| + 1) + 14 < U32
      ensures Closes(key, value) ==> |buf| + 4 * |entryOffsets| + 14 + 22 + |key| + |Encode(value)| < U32
    {
      hide BlocksBytes, IndexEntries, BlockBytes, BlockOk, Hashes, DataBytes, Encode, EncodedSize;
      var it := ItemOf(key, value);
      EncodedSizeCovers(value);
      AppendEntry(current, it);
      var base := BaseFor(current + [it], |current|);
      assert |EntryOf(base, it)| <= 4 + |key| + |Encode(value)|;
      if current != [] { FirstEntrySize(current); }
    }

    /** The estimate is what the open block would need with one more entry. */
    lemma EstimateIs(key: Key, value: Value)
      requires Valid()
      ensures baseOffset <= |buf| && Estimate(key, value) == Need(current, |current|, key, value)
      ensures entryOffsets == [] <==> current == []
      ensures baseKey == if current == [] then [] else current[0].key
    {
      hide BlocksBytes, IndexEntries, BlockBytes, BlockOk, Hashes, DataBytes, EncodedSize, WithinLimit;
    }

    /** When `add` returns, in numbers. */
    lemma AcceptsInNumbers(key: Key, value: Value, vlogLen: nat)
      requires Valid() && value.expiresAt < U64
      ensures var need := Need(current, |current|, key, value);
              var shared := if current == [] || need > blockSize % U32 then 0 else CommonPrefix(current[0].key, key);
              Accepts(key, value, vlogLen) <==>
                && (if current == [] then |buf| + 22 + |key| + |Encode(value)| < U32 else |buf| + need < U32 - 1)
                && index.estimatedSize + |value.value| + 2 + |EncodeVarint(value.expiresAt)| + (|key| - shared) + 4 + vlogLen < U32
    {
      hide BlocksBytes, IndexEntries, BlockBytes, BlockOk, Hashes, DataBytes, EncodedSize, WithinLimit, Encode, EncodeVarint, CommonPrefix, Need, Valid, Counted;
      EstimateIs(key, value);
      CountedInNumbers(if Closes(key, value) then [] else baseKey, key, value, vlogLen);
    }

    /** `add`; false when an assertion or an addition panics. */
    method Add(key: Key, value: Value, vlogLen: nat) returns (ok: bool)
      requires Valid() && |key| <= MAX_KEY && value.expiresAt < U64
      modifies this
      ensures ok <==> old(Accepts(key, value, vlogLen))
      ensures ok ==> Valid() && All() == old(All()) + [ItemOf(key, value)]
      ensures ok ==>
              if old(current) != [] && Need(old(current), |old(current)|, key, value) > blockSize % U32
              then blocks == old(blocks) + [old(current)] && current == [ItemOf(key, value)]
              else blocks == old(blocks) && current == old(current) + [ItemOf(key, value)]
      ensures ok ==> |buf| + 4 * |entryOffsets| <= old(|buf| + 4 * |entryOffsets|) + |key| + EncodedSize(value) + 22
      ensures ok ==> index.estimatedSize == old(index.estimatedSize) + |value.value| + 2 + |EncodeVarint(value.expiresAt)|
                       + (|key| - if |current| == 1 then 0 else CommonPrefix(current[0].key, key)) + 4 + vlogLen
    {
      hide BlocksBytes, IndexEntries, BlockBytes, DataBytes, Offsets, Hashes, Flatten, Encode, EncodedSize, BlockOk, WithinLimit, Counted, Need, OverlapWith, EncodeVarint, CommonPrefix;
      EstimateIs(key, value);
      if !SizeOk(key, value) { return false; }
      EncodedSizeCovers(value);
      CountedInNumbers(if Closes(key, value) then [] else baseKey, key, value, vlogLen);
      EstimateCovers(key, value);
      ghost var all, it := All(), ItemOf(key, value);
      if Closes(key, value) {
        EntriesAgree();
        FinishBlock();
        CloseBlock();
        SingleWithin(blockSize % U32, it);
        assert [] + [it] == [it];
      }
      assert All() == all;
      ok := AddHelper(key, value, vlogLen);
      assert ok ==> All() == all + [it];
    }

    lemma EntriesAgree()
      requires Valid()
      ensures entryOffsets == [] <==> current == []
    {}

    /** `finish`, called once. `probes` is the Bloom filter's k; bitsPerKey is None when the filter is off.
        The source's assertion on the length of the index is the one way it can fail. */
    method Finish(bitsPerKey: Option<nat>, probes: nat) returns (r: Result<Bytes, TableError>)
      requires Valid() && 1 <= probes <= Bloom.MAX_K
      modifies this
      ensures All() == old(All()) && blocks == old(blocks) + if old(current) == [] then [] else [old(current)]
      ensures current == [] && SummerOk(sum) && BlocksOk(blocks) && |BlocksBytes(sum, blocks)| < U32
      ensures forall i :: 0 <= i < |blocks| ==> WithinLimit(blockSize % U32, blocks[i])
      ensures index.offsets == IndexEntries(sum, blocks) && index.estimatedSize < U32 && index.maxVersion == index.keyCount == 0
      ensures if blocks != [] && bitsPerKey.Some? then FilterOf(index.bloom, hash, All(), bitsPerKey.value, probes)
              else index.bloom == []
      ensures r.Err? <==> blocks != [] && |EncodeIndex(index)| >= U32 - 1
      ensures r.Err? ==> r.error == Panicked
      ensures r.Ok? ==> r.value == if blocks == [] then [] else BlocksBytes(sum, blocks) + Footer(sum, index)
      ensures r.Ok? && blocks != [] ==> IndexOk(index)
    {
      hide BlocksBytes, IndexEntries, BlockBytes, DataBytes, Offsets, Hashes, Flatten, BlockOk, WithinLimit, EncodeIndex, EncodeChecksum;
      EntriesAgree();
      ghost var all := All();
      FinishBlock();
      if entryOffsets != [] { CloseBlock(); }
      assert Valid() && current == [];
      assert All() == all;
      EmptyBlock();
      assert buf == BlocksBytes(sum, blocks);
      if buf == [] {
        NoBlocks(sum, blocks);
        return Ok([]);
      }
      BlocksNonEmpty(sum, blocks);
      ghost var hashes := keyHashes;
      if bitsPerKey.Some? {
        HashesBounded(hash, all);
        var filter := Bloom.Build(keyHashes, bitsPerKey.value, probes);
        index := index.(bloom := Bloom.Stored(filter, probes));
        assert FilterOf(index.bloom, hash, all, bitsPerKey.value, probes);
      }
      var bytes := EncodeIndex(index);
      if |bytes| >= U32 - 1 { return Err(Panicked); }
      IndexEntriesOk(sum, blocks);
      BloomBounded(index);
      buf := buf + (bytes + (BE32(|bytes|) + Trailer(sum, bytes)));
      return Ok(buf);
    }
  }

  /** The loop of `finish_block` that writes the entry offsets. */
  method OffsetsLE(offsets: seq<nat>) returns (bytes: Bytes)
    ensures bytes == OffsetBytes(offsets)
  {
    bytes := [];
    for i := 0 to |offsets|
      invariant bytes == OffsetBytes(offsets[..i])
    {
      bytes := bytes + LE32(offsets[i]);
      assert offsets[..i + 1][..i] == offsets[..i];
    }
    assert offsets[..|offsets|] == offsets;
  }

  /** The stored filter has exactly the probed bits of the keys' hashes. */
  ghost predicate FilterOf(bloom: Bytes, hash: Bytes -> nat, items: seq<Item>, bitsPerKey: nat, k: nat) {
    exists filter: seq<bv8> :: Bloom.FilterBits(filter, Hashes(hash, items), bitsPerKey, k) && k < 256 && bloom == Bloom.Stored(filter, k)
  }

  lemma HashesBounded(hash: Bytes -> nat, items: seq<Item>)
    requires forall b :: hash(b) < U32
    ensures forall h :: h in Hashes(hash, items) ==> h < U32
  {
    forall i | 0 <= i < |items| ensures Hashes(hash, items)[i] < U32 { assert hash(UserKey(items[i].key)) < U32; }
  }

  lemma NoBlocks(sum: Summer, blocks: seq<seq<Item>>)
    requires BlocksOk(blocks) && BlocksBytes(sum, blocks) == []
    ensures blocks == []
  {
    if blocks != [] { BlocksNonEmpty(sum, blocks); }
  }

  lemma BlocksNonEmpty(sum: Summer, blocks: seq<seq<Item>>)
    requires BlocksOk(blocks)
    ensures BlocksBytes(sum, blocks) == [] <==> blocks == []
  {
    if blocks != [] {
      EntryAt(blocks[|blocks| - 1], 0, |blocks[|blocks| - 1]|);
    }
  }

  lemma BloomBounded(t: TableIndex)
    ensures |t.bloom| <= |EncodeIndex(t)|
  {
    FieldSizes(OffsetFields(t.offsets) + IndexTail(t));
    if t.bloom != [] {
      var f := LenField(2, t.bloom);
      assert IndexTail(t)[0] == f;
      assert (OffsetFields(t.offsets) + IndexTail(t))[|t.offsets|] == f;
    }
  }

  lemma EmptyBlock()
    ensures Offsets([]) == [] && DataBytes([], 0) == [] && ItemsOk([])
    ensures forall limit :: WithinLimit(limit, [])
  {}

  lemma SingleWithin(limit: nat, it: Item)
    ensures WithinLimit(limit, [] + [it])
  {}

  lemma BlocksExtend(sum: Summer, blocks: seq<seq<Item>>, last: seq<Item>)
    requires BlocksOk(blocks) && last != []
    ensures BlocksBytes(sum, blocks + [last]) == BlocksBytes(sum, blocks) + BlockBytes(sum, last)
    ensures IndexEntries(sum, blocks + [last]) == IndexEntries(sum, blocks) + [IndexEntry(sum, last, |BlocksBytes(sum, blocks)|)]
  {
    hide BlockBytes;
    assert (blocks + [last])[..|blocks|] == blocks;
  }

  lemma Rejoin(a: Bytes, b: Bytes, c: Bytes, d: Bytes, e: Bytes)
    ensures a + b + c + d + e == a + (b + (c + d + e))
  {}

  lemma EntryFromDiff(base: Bytes, key: Key, v: Value, diff: Bytes)
    requires diff == key[OverlapWith(base, key)..]
    ensures HeaderBytes(|key| - |diff|, |diff|) + diff + Encode(v) == EntryOf(base, ItemOf(key, v))
    ensures |HeaderBytes(|key| - |diff|, |diff|)| == 4 && |diff| <= |key|
  {}

  /** What an entry adds to `estimated_size`. */
  function Counted(base: Bytes, key: Key, v: Value, vlogLen: nat): nat {
    EncodedSize(v) + (|key| - OverlapWith(base, key)) + 4 + vlogLen
  }

  lemma CountedInNumbers(base: Bytes, key: Key, v: Value, vlogLen: nat)
    requires v.expiresAt < U64
    ensures Counted(base, key, v, vlogLen)
         == |v.value| + 2 + |EncodeVarint(v.expiresAt)| + (|key| - if base == [] then 0 else CommonPrefix(base, key)) + 4 + vlogLen
  {
    hide EncodedSize, CommonPrefix, EncodeVarint;
    EncodedSizeIs(v);
  }

  /** What a block of the first n items would need with this entry: header, key and value, all offsets and the count,
      and room for a checksum and its length. */
  ghost function Need(items: seq<Item>, n: nat, key: Key, v: Value): nat
    requires n <= |items|
  {
    |DataBytes(items, n)| + 6 + |key| + EncodedSize(v) + 4 * (n + 1) + 16
  }

  lemma CountedIs(base: Bytes, key: Key, v: Value, vlogLen: nat, diff: Bytes)
    requires diff == key[OverlapWith(base, key)..]
    ensures Counted(base, key, v, vlogLen) == EncodedSize(v) + |diff| + 4 + vlogLen
  {}

  /** The first entry stores its key whole, so a block with entries is never tiny. */
  lemma FirstEntrySize(items: seq<Item>)
    requires items != []
    ensures |DataBytes(items, |items|)| >= 12
  {
    hide DataBytes;
    EntryAt(items, 0, |items|);
    assert EntryBytes(items, 0) == HeaderBytes(0, |items[0].key|) + (items[0].key[0..] + items[0].value);
  }

  lemma HashesAppend(hash: Bytes -> nat, items: seq<Item>, it: Item)
    ensures Hashes(hash, items + [it]) == Hashes(hash, items) + [hash(UserKey(it.key))]
  {}

  /** Adding an entry extends the data and the offsets of the open block and changes nothing before. */
  lemma AppendEntry(items: seq<Item>, it: Item)
    ensures var more := items + [it];
            && DataBytes(more, |more|) == DataBytes(items, |items|) + EntryOf(BaseFor(more, |items|), it)
            && Offsets(more) == Offsets(items) + [Offset(items, |items|)]
  {
    hide EntryOf;
    var more := items + [it];
    forall n: nat | n <= |items| ensures DataBytes(more, n) == DataBytes(items, n) { DataPrefix(items, [it], n); }
    assert more[|items|] == it;
  }

  lemma Regroup(a: Bytes, b: Bytes, c: Bytes)
    ensures a + b + c == a + (b + c) && (a + b + c)[|a|..] == b + c
  {}
}
