/** Opening a table, its Bloom check, and the writer and the reader put together. */
module Tables {
  import opened Wrappers
  import opened Bytes
  import opened Keys
  import opened Values
  import opened Proto
  import opened SstFormat
  import opened SstTable
  import opened Cursors
  import opened BlockIterators
  import opened TableIterators
  import opened Builders
  import opened IndexSizes
  import Bloom

  function Unopened(sum: Summer, data: Bytes, index: TableIndex, mode: ChecksumMode): Table {
    Table(data, index, [], [], mode, sum)
  }

  /** The boundary keys are not consulted when a block is read. */
  lemma HoldsFrame(t: Table, blocks: seq<seq<Item>>, smallest: Bytes, biggest: Bytes)
    requires Holds(t, blocks)
    ensures Holds(t.(smallest := smallest, biggest := biggest), blocks)
  {
    hide BlockOf, ParseBlock, VerifyBlock, BlockOk;
    var u := t.(smallest := smallest, biggest := biggest);
    forall i | 0 <= i < |blocks| ensures ReadBlock(u, i) == ReadBlock(t, i) {}
  }

  /** Block i can be read, and its checksum is that of its bytes. */
  ghost predicate BlockGood(t: Table, i: nat) {
    ReadBlock(t, i).Ok? && SumIs(t.sum, ReadBlock(t, i).value.data, ReadBlock(t, i).value.checksum)
  }

  /** What is wrong with a block that is not good. */
  ghost function BlockFault(t: Table, i: nat): TableError {
    match ReadBlock(t, i)
    case Err(e) => e
    case Ok(b) =>
      match DecodeChecksum(b.checksum)
      case None => Undecodable
      case Some(c) => if c.algo == CRC32C || c.algo == XXHASH64 then ChecksumMismatch else Panicked
  }

  /** `verify_checksum`: succeeds exactly when every block is good, and otherwise reports the first that is not. */
  method VerifyAll(t: Table) returns (r: Result<(), TableError>)
    ensures r.Ok? <==> forall i: nat :: i < |t.index.offsets| ==> BlockGood(t, i)
    ensures r.Err? ==> exists i: nat :: i < |t.index.offsets| && !BlockGood(t, i) && r.error == BlockFault(t, i)
                                        && forall k: nat :: k < i ==> BlockGood(t, k)
  {
    hide ParseBlock, DecodeChecksum;
    for i := 0 to |t.index.offsets|
      invariant forall k: nat :: k < i ==> BlockGood(t, k)
    {
      var block := ReadBlock(t, i);
      if block.Err? {
        assert !BlockGood(t, i);
        return Err(block.error);
      }
      if t.mode != OnBlockRead && t.mode != OnTableAndBlockRead {
        var v := VerifyBlock(t.sum, block.value);
        if v.Err? {
          assert !BlockGood(t, i);
          return Err(v.error);
        }
      }
      assert BlockGood(t, i);
    }
    r := Ok(());
  }

  lemma GoodWhenHeld(t: Table, blocks: seq<seq<Item>>, i: nat)
    requires SummerOk(t.sum) && Holds(t, blocks) && i < |blocks|
    ensures BlockGood(t, i)
  {
    hide DecodeChecksum, EncodeChecksum, ParseBlock, DataBytes;
    BlockRead(t, blocks, i);
    VerifyOwnBlock(t.sum, blocks[i]);
  }

  /** The part of `rewind` that a new reversed iterator runs, on the last block; any error of reading it
      becomes one about the biggest key. */
  method Biggest(t: Table, ghost last: seq<Item>) returns (r: Result<Bytes, TableError>)
    requires t.index.offsets != [] && LastOk(t, last)
    ensures ReadBlock(t, |t.index.offsets| - 1).Err? ==>
              r == Err(if ReadBlock(t, |t.index.offsets| - 1).error == Panicked then Panicked else NoBiggest)
    ensures ReadBlock(t, |t.index.offsets| - 1).Ok? ==> last != [] && r == Ok(last[|last| - 1].key)
  {
    hide BlockOf, ReadBlock;
    var block := ReadBlock(t, |t.index.offsets| - 1);
    if block.Err? { return Err(if block.error == Panicked then Panicked else NoBiggest); }
    var bi := new BlockIterator(t.sum, block.value, last);
    bi.SeekToLast();
    return Ok(bi.key);
  }

  /** The last block, if it can be read at all, was built from these items. */
  ghost predicate LastOk(t: Table, last: seq<Item>) {
    t.index.offsets != [] && ReadBlock(t, |t.index.offsets| - 1).Ok? ==>
      BlockOk(last) && ReadBlock(t, |t.index.offsets| - 1) == Ok(BlockOf(t.sum, last))
  }

  predicate ChecksOnOpen(mode: ChecksumMode) { mode == OnTableRead || mode == OnTableAndBlockRead }

  /** The last block can be read, and all blocks are good when the mode looks at them. */
  ghost predicate Opens(t: Table)
    requires t.index.offsets != []
  {
    && ReadBlock(t, |t.index.offsets| - 1).Ok?
    && (ChecksOnOpen(t.mode) ==> forall i: nat :: i < |t.index.offsets| ==> BlockGood(t, i))
  }

  /** `open_in_memory`: the footer, the boundary keys, and a pass over all blocks when the mode asks for one.
      Blocks other than the last may hold anything. */
  method Open(sum: Summer, data: Bytes, mode: ChecksumMode, ghost last: seq<Item>) returns (r: Result<Table, TableError>)
    requires ReadFooter(sum, data).Ok? ==> LastOk(Unopened(sum, data, ReadFooter(sum, data).value, mode), last)
    ensures ReadFooter(sum, data).Err? ==> r == Err(ReadFooter(sum, data).error)
    ensures ReadFooter(sum, data).Ok? ==>
              var t := Unopened(sum, data, ReadFooter(sum, data).value, mode);
              t.index.offsets != [] && (r.Ok? <==> Opens(t))
    ensures r.Ok? ==>
              var t := Unopened(sum, data, ReadFooter(sum, data).value, mode);
              t.index.offsets != [] && last != []
              && r.value == t.(smallest := t.index.offsets[0].key, biggest := last[|last| - 1].key)
  {
    hide BlockOf, ReadBlock, LastOk, BlockGood, BlockFault;
    var footer := ReadFooter(sum, data);
    if footer.Err? { return Err(footer.error); }
    var t := Unopened(sum, data, footer.value, mode);
    var biggest := Biggest(t, last);
    if biggest.Err? { return Err(biggest.error); }
    var table := t.(smallest := t.index.offsets[0].key, biggest := biggest.value);
    if mode == OnTableRead || mode == OnTableAndBlockRead {
      var v := VerifyAll(table);
      GoodFrame(t, table.smallest, table.biggest);
      if v.Err? { return Err(v.error); }
    }
    return Ok(table);
  }

  lemma GoodFrame(t: Table, smallest: Bytes, biggest: Bytes)
    ensures forall i: nat :: BlockGood(t.(smallest := smallest, biggest := biggest), i) <==> BlockGood(t, i)
  {
    hide ParseBlock, VerifyBlock, SumIs;
    var u := t.(smallest := smallest, biggest := biggest);
    forall i: nat ensures ReadBlock(u, i) == ReadBlock(t, i) {}
  }

  lemma FlatNotEmpty(t: Table, blocks: seq<seq<Item>>)
    requires Holds(t, blocks)
    ensures Flatten(blocks) != [] && Flatten(blocks)[0].key == FirstKey(blocks, 0) == t.index.offsets[0].key
    ensures var last := blocks[|blocks| - 1];
            last != [] && LastOk(t, last) && Flatten(blocks)[|Flatten(blocks)| - 1].key == last[|last| - 1].key
  {
    hide ReadBlock, BlockOf, Flatten, Start;
    BlockRead(t, blocks, 0);
    BlockRead(t, blocks, |blocks| - 1);
    FlatFirst(blocks, 0);
    StartEnds(blocks);
    assert BlockOk(blocks[|blocks| - 1]);
    EndOfFlat(blocks);
  }

  lemma EndOfFlat(blocks: seq<seq<Item>>)
    requires blocks != [] && blocks[|blocks| - 1] != []
    ensures var last := blocks[|blocks| - 1];
            Flatten(blocks) != [] && Flatten(blocks)[|Flatten(blocks)| - 1] == last[|last| - 1]
  {}

  /** Every mode opens a table of well-formed blocks, with the first and the last key as its bounds. */
  lemma HeldOpens(t: Table, blocks: seq<seq<Item>>)
    requires SummerOk(t.sum) && Holds(t, blocks)
    ensures forall i: nat :: i < |t.index.offsets| ==> BlockGood(t, i)
    ensures ReadBlock(t, |t.index.offsets| - 1).Ok?
  {
    hide ReadBlock, BlockOf, BlockOk;
    FlatNotEmpty(t, blocks);
    forall i: nat | i < |t.index.offsets| ensures BlockGood(t, i) { GoodWhenHeld(t, blocks, i); }
    assert BlockGood(t, |t.index.offsets| - 1);
  }

  // ------------------------------------------------------------ the Bloom check

  /** What a table with this stored filter answers when asked whether it lacks a hash. */
  ghost function Denies(bloom: Bytes, h: nat): Bloom.Reply {
    if bloom == [] then Bloom.Said(false)
    else
      var n := |bloom| - 1;
      match Bloom.Asked(Bloom.FromBytes(bloom[..n]), bloom[n], h)
      case Said(may) => Bloom.Said(!may)
      case Panicked => Bloom.Panicked
  }

  /** `does_not_have` */
  method DoesNotHave(t: Table, h: nat) returns (absent: Bloom.Reply)
    requires h < U32
    ensures absent == Denies(t.index.bloom, h)
  {
    if t.index.bloom == [] { return Bloom.Said(false); }
    var n := |t.index.bloom| - 1;
    var may := Bloom.MayContain(Bloom.FromBytes(t.index.bloom[..n]), t.index.bloom[n], h);
    match may
    case Said(yes) => absent := Bloom.Said(!yes);
    case Panicked => absent := Bloom.Panicked;
  }

  lemma DeniesIs(bloom: Bytes, hash: Bytes -> nat, items: seq<Item>, bitsPerKey: nat, k: nat, h: nat) returns (filter: seq<bv8>)
    requires FilterOf(bloom, hash, items, bitsPerKey, k)
    ensures Bloom.FilterBits(filter, Hashes(hash, items), bitsPerKey, k)
    ensures Denies(bloom, h) == match Bloom.Asked(filter, k, h)
                                case Said(may) => Bloom.Said(!may)
                                case Panicked => Bloom.Panicked
  {
    hide Bloom.FilterBits, Bloom.Asked, Hashes;
    filter :| Bloom.FilterBits(filter, Hashes(hash, items), bitsPerKey, k) && k < 256 && bloom == Bloom.Stored(filter, k);
    Bloom.BytesRoundTrip(filter);
    assert bloom[..|bloom| - 1] == Bloom.ToBytes(filter);
  }

  /** While its filter has fewer than 2^32 bits, a table never claims to lack the user key of an entry it was built from. */
  lemma NeverLosesAKey(bloom: Bytes, hash: Bytes -> nat, items: seq<Item>, bitsPerKey: nat, k: nat, it: Item)
    requires FilterOf(bloom, hash, items, bitsPerKey, k) && it in items
    requires Bloom.Bits(|items|, bitsPerKey) < U32
    ensures Denies(bloom, hash(UserKey(it.key))) == Bloom.Said(false)
  {
    hide Bloom.FilterBits, Bloom.Asked, Denies, Hashes;
    var filter := DeniesIs(bloom, hash, items, bitsPerKey, k, hash(UserKey(it.key)));
    HashIn(hash, items, it);
    Bloom.NoFalseNegative(filter, Hashes(hash, items), bitsPerKey, k, hash(UserKey(it.key)));
  }

  /** No table of n entries denies the user key of one of them, whatever the hash function. */
  ghost predicate LosesNothing(n: nat, bitsPerKey: nat, k: nat) {
    forall bloom, hash: Bytes -> nat, items: seq<Item>, it: Item |
      |items| == n && Sorted(false, items) && (forall b :: hash(b) < U32) && FilterOf(bloom, hash, items, bitsPerKey, k) && it in items ::
      Denies(bloom, hash(UserKey(it.key))) == Bloom.Said(false)
  }

  /** That holds exactly when the filter has fewer than 2^32 bits. Beyond, the versions of one user key
    * with an unlucky hash are enough. */
  lemma LosesNothingWhen(n: nat, bitsPerKey: nat, k: nat)
    requires 1 <= k <= Bloom.MAX_K && n < U32
    ensures LosesNothing(n, bitsPerKey, k) <==> Bloom.Bits(n, bitsPerKey) < U32
  {
    hide FilterOf, Denies, Sorted, Bloom.FilterBits, Bloom.Asked;
    if Bloom.Bits(n, bitsPerKey) < U32 {
      forall bloom, hash: Bytes -> nat, items: seq<Item>, it: Item |
        |items| == n && Sorted(false, items) && (forall b :: hash(b) < U32) && FilterOf(bloom, hash, items, bitsPerKey, k) && it in items
        ensures Denies(bloom, hash(UserKey(it.key))) == Bloom.Said(false)
      {
        NeverLosesAKey(bloom, hash, items, bitsPerKey, k, it);
      }
    } else {
      var hash: Bytes -> nat := (b: Bytes) => U32 - 1;
      var items := Versions(n);
      VersionsSorted(n);
      assert Hashes(hash, items) == Bloom.AllOnes(n);
      var filter := Bloom.SomeFilter(Bloom.AllOnes(n), bitsPerKey, k);
      var bloom := Bloom.Stored(filter, k);
      assert FilterOf(bloom, hash, items, bitsPerKey, k) by { StoredIsFilter(filter, hash, items, bitsPerKey, k); }
      var same := DeniesIs(bloom, hash, items, bitsPerKey, k, U32 - 1);
      Bloom.AllOnesDenied(same, n, bitsPerKey, k);
      assert items[0] in items && hash(UserKey(items[0].key)) == U32 - 1;
    }
  }

  lemma StoredIsFilter(filter: seq<bv8>, hash: Bytes -> nat, items: seq<Item>, bitsPerKey: nat, k: nat)
    requires Bloom.FilterBits(filter, Hashes(hash, items), bitsPerKey, k) && k < 256
    ensures FilterOf(Bloom.Stored(filter, k), hash, items, bitsPerKey, k)
  {}

  /** n versions of the empty user key, newest first. */
  function Versions(n: nat): (items: seq<Item>)
    requires n < U32
    ensures |items| == n
  {
    seq(n, i requires 0 <= i < n => Item(KeyWithTs([], U64 - 1 - i), []))
  }

  lemma VersionsSorted(n: nat)
    requires n < U32
    ensures Sorted(false, Versions(n))
  {
    hide KeyWithTs, UserKey, GetTs, Before;
    forall i, j | 0 <= i < j < n ensures Ahead(false, Versions(n)[i].key, Versions(n)[j].key) {
      KeyParts([], U64 - 1 - i);
      KeyParts([], U64 - 1 - j);
      VersionOrder(KeyWithTs([], U64 - 1 - i), KeyWithTs([], U64 - 1 - j));
    }
  }

  lemma HashIn(hash: Bytes -> nat, items: seq<Item>, it: Item)
    requires it in items
    ensures hash(UserKey(it.key)) in Hashes(hash, items)
  {
    var i :| 0 <= i < |items| && items[i] == it;
    assert Hashes(hash, items)[i] == hash(UserKey(it.key));
  }

  // ------------------------------------------------------------ write, open, read

  datatype Pair = Pair(key: Key, value: Value)

  function ItemsOf(pairs: seq<Pair>): (items: seq<Item>)
    ensures |items| == |pairs|
  {
    seq(|pairs|, i requires 0 <= i < |pairs| => ItemOf(pairs[i].key, pairs[i].value))
  }

  /** An upper bound of what the pairs take up in a table. */
  function Cost(pairs: seq<Pair>): nat {
    if pairs == [] then 0 else Cost(pairs[..|pairs| - 1]) + PairCost(pairs[|pairs| - 1])
  }

  function PairCost(p: Pair): nat { |p.key| + EncodedSize(p.value) + 22 }

  ghost predicate PairsOk(pairs: seq<Pair>) {
    && Sorted(false, ItemsOf(pairs))
    && forall p :: p in pairs ==> |p.key| <= MAX_KEY && p.value.expiresAt < U64
  }

  lemma {:induction false} CostPrefix(pairs: seq<Pair>, n: nat)
    requires n < |pairs|
    ensures Cost(pairs[..n]) + PairCost(pairs[n]) == Cost(pairs[..n + 1]) <= Cost(pairs)
    decreases |pairs|
  {
    assert pairs[..n + 1][..n] == pairs[..n];
    if n + 1 < |pairs| {
      var m := |pairs| - 1;
      CostPrefix(pairs[..m], n);
      assert pairs[..m][..n] == pairs[..n] && pairs[..m][..n + 1] == pairs[..n + 1];
    } else {
      assert pairs[..n + 1] == pairs;
    }
  }

  /** What `finish` leaves opens again: the footer gives back the index, the index the blocks. */
  lemma BuiltIsReadable(sum: Summer, blocks: seq<seq<Item>>, index: TableIndex, mode: ChecksumMode)
    requires SummerOk(sum) && blocks != [] && BlocksOk(blocks) && IndexOk(index) && |EncodeIndex(index)| < U32
    requires index.offsets == IndexEntries(sum, blocks)
    ensures var data := BlocksBytes(sum, blocks) + Footer(sum, index);
            && ReadFooter(sum, data) == Ok(index)
            && Holds(Unopened(sum, data, index, mode), blocks)
  {
    hide BlocksBytes, Footer, IndexEntries, BlockOk, IndexOk, EncodeIndex;
    FooterRoundTrip(sum, BlocksBytes(sum, blocks), index);
    TableHolds(Unopened(sum, BlocksBytes(sum, blocks) + Footer(sum, index), index, mode), blocks, Footer(sum, index));
  }

  /** Every block of a built table with two or more entries fits the block size, checksum and trailer included. */
  lemma BlockSizeBound(sum: Summer, limit: nat, items: seq<Item>)
    requires SummerOk(sum) && WithinLimit(limit, items) && |items| >= 2
    ensures |BlockBytes(sum, items)| <= limit
  {
    hide EncodeChecksum, DecodeChecksum, DataBytes;
    TrailerBytes(sum, BodyBytes(DataBytes(items, |items|), Offsets(items)));
  }

  /** The most a single pair takes. */
  function Largest(pairs: seq<Pair>): nat {
    if pairs == [] then 0
    else
      var p, rest := pairs[|pairs| - 1], Largest(pairs[..|pairs| - 1]);
      if rest < PairCost(p) then PairCost(p) else rest
  }

  /** The most an open block takes: the block size or one large entry, and never more than everything. */
  function Peak(pairs: seq<Pair>, limit: nat): nat {
    var b := if limit < Largest(pairs) then Largest(pairs) else limit;
    if b < Cost(pairs) then b else Cost(pairs)
  }

  function FilterBytes(n: nat, bitsPerKey: Option<nat>): nat {
    if bitsPerKey.None? then 0 else Bloom.Bits(n, bitsPerKey.value) / 8 + 1
  }

  /** A table, its open block and its index that stay below 2^32 bytes. */
  predicate Room(pairs: seq<Pair>, blockSize: nat, bitsPerKey: Option<nat>) {
    && Cost(pairs) + Peak(pairs, blockSize % U32) + 60 < U32
    && Cost(pairs) + FilterBytes(|pairs|, bitsPerKey) + 30 < U32
  }

  lemma FilterSize(bloom: Bytes, hash: Bytes -> nat, items: seq<Item>, bitsPerKey: nat, k: nat)
    requires FilterOf(bloom, hash, items, bitsPerKey, k)
    ensures |bloom| == FilterBytes(|items|, Some(bitsPerKey))
  {
    hide Bloom.GetBit, Bloom.Marked;
  }

  lemma {:induction false} LargestIs(pairs: seq<Pair>, j: nat)
    requires j < |pairs|
    ensures PairCost(pairs[j]) <= Largest(pairs)
  {
    if j < |pairs| - 1 { LargestIs(pairs[..|pairs| - 1], j); }
  }

  lemma OpenBlockSize(b: Builder, pairs: seq<Pair>, i: nat)
    requires b.Valid() && i <= |pairs| && b.All() == ItemsOf(pairs)[..i] && PairsOk(pairs) && |b.buf| <= Cost(pairs)
    ensures |b.buf| - b.baseOffset <= Peak(pairs, b.blockSize % U32)
  {
    hide BlocksBytes, IndexEntries, Offsets, Hashes, Flatten, EncodedSize, Encode, Cost, Largest, DataBytes, Sorted;
    var c := b.current;
    if |c| == 1 {
      assert c[0] == b.All()[|Flatten(b.blocks)|];
      var j := |Flatten(b.blocks)|;
      assert c[0] == ItemsOf(pairs)[j] && pairs[j] in pairs;
      LargestIs(pairs, j);
      EncodedSizeCovers(pairs[j].value);
      SingleEntrySize(c);
    } else if c == [] {
      NoData();
    }
  }

  lemma NoData()
    ensures DataBytes([], 0) == []
  {}

  lemma SingleEntrySize(c: seq<Item>)
    requires |c| == 1
    ensures |DataBytes(c, 1)| == 4 + |c[0].key| + |c[0].value|
  {
    assert DataBytes(c, 0) == [];
    assert DataBytes(c, 1) == EntryOf([], c[0]);
  }

  lemma {:induction false} CostCovers(pairs: seq<Pair>)
    ensures Weight(ItemsOf(pairs)) <= Cost(pairs)
    decreases |pairs|
  {
    hide EncodedSize, Encode;
    if pairs != [] {
      var n := |pairs| - 1;
      CostCovers(pairs[..n]);
      assert ItemsOf(pairs)[..n] == ItemsOf(pairs[..n]);
      SizeAtLeastThree(pairs[n].value);
    }
  }

  lemma SizeAtLeastThree(v: Value)
    ensures EncodedSize(v) >= 3
  {}

  // ------------------------------------------------------------ where blocks end

  /** Entry k of block i was let in: with it the block was not estimated above the limit. */
  ghost predicate FitsAt(limit: nat, blocks: seq<seq<Item>>, pairs: seq<Pair>, i: int, k: int)
    requires 0 <= i < |blocks| && 0 <= k < |blocks[i]|
  {
    var j := Start(blocks, i) + k;
    j < |pairs| && Need(blocks[i], k, pairs[j].key, pairs[j].value) <= limit
  }

  /** The first entry of block i would not have fitted the block before. */
  ghost predicate BurstsAt(limit: nat, blocks: seq<seq<Item>>, pairs: seq<Pair>, i: int)
    requires 0 < i < |blocks|
  {
    var j := Start(blocks, i);
    j < |pairs| && Need(blocks[i - 1], |blocks[i - 1]|, pairs[j].key, pairs[j].value) > limit
  }

  /** Every block ends exactly where the next entry no longer fits. */
  ghost predicate Packed(limit: nat, blocks: seq<seq<Item>>, pairs: seq<Pair>) {
    && (forall i, k :: 0 <= i < |blocks| && 0 < k < |blocks[i]| ==> FitsAt(limit, blocks, pairs, i, k))
    && (forall i :: 0 < i < |blocks| ==> BurstsAt(limit, blocks, pairs, i))
  }

  lemma BurstsKept(limit: nat, a: seq<seq<Item>>, b: seq<seq<Item>>, pairs: seq<Pair>, i: int)
    requires 0 < i < |a| && i < |b| && a[..i] == b[..i] && BurstsAt(limit, a, pairs, i)
    ensures BurstsAt(limit, b, pairs, i)
  {
    hide Need, Flatten;
    assert a[i - 1] == a[..i][i - 1] == b[..i][i - 1] == b[i - 1];
  }

  lemma FitsKept(limit: nat, a: seq<seq<Item>>, b: seq<seq<Item>>, pairs: seq<Pair>, i: int, k: int)
    requires 0 <= i < |a| && i < |b| && a[..i] == b[..i] && 0 <= k < |a[i]| && k < |b[i]|
    requires DataBytes(a[i], k) == DataBytes(b[i], k) && FitsAt(limit, a, pairs, i, k)
    ensures FitsAt(limit, b, pairs, i, k)
  {
    hide Flatten, DataBytes;
  }

  lemma PackedNone(limit: nat, pairs: seq<Pair>)
    ensures Packed(limit, [], pairs)
  {}

  lemma PackedOpen(limit: nat, blocks: seq<seq<Item>>, pairs: seq<Pair>, it: Item)
    requires Packed(limit, blocks, pairs) && |Flatten(blocks)| < |pairs|
    requires blocks != [] ==>
      var last, p := blocks[|blocks| - 1], pairs[|Flatten(blocks)|]; Need(last, |last|, p.key, p.value) > limit
    ensures Packed(limit, blocks + [[it]], pairs)
  {
    hide Need, Flatten, FitsAt, BurstsAt, DataBytes;
    var more, n := blocks + [[it]], |blocks|;
    assert more[..n] == blocks;
    forall i | 0 < i < |more| ensures BurstsAt(limit, more, pairs, i) {
      if i < n {
        assert more[..i] == blocks[..i];
        BurstsKept(limit, blocks, more, pairs, i);
      } else {
        BurstsLast(limit, more, pairs);
      }
    }
    forall i, k | 0 <= i < |more| && 0 < k < |more[i]| ensures FitsAt(limit, more, pairs, i, k) {
      assert more[..i] == blocks[..i];
      FitsKept(limit, blocks, more, pairs, i, k);
    }
  }

  lemma BurstsLast(limit: nat, more: seq<seq<Item>>, pairs: seq<Pair>)
    requires |more| > 1
    requires var n := |more| - 1; var j := |Flatten(more[..n])|;
             j < |pairs| && Need(more[n - 1], |more[n - 1]|, pairs[j].key, pairs[j].value) > limit
    ensures BurstsAt(limit, more, pairs, |more| - 1)
  {
    hide Need, Flatten;
  }

  lemma PackedGrow(limit: nat, blocks: seq<seq<Item>>, open: seq<Item>, pairs: seq<Pair>, it: Item)
    requires Packed(limit, blocks + [open], pairs) && open != [] && |Flatten(blocks + [open])| < |pairs|
    requires var p := pairs[|Flatten(blocks + [open])|]; Need(open, |open|, p.key, p.value) <= limit
    ensures Packed(limit, blocks + [open + [it]], pairs)
  {
    hide Flatten, Need, FitsAt, BurstsAt, DataBytes;
    var was, more, n := blocks + [open], blocks + [open + [it]], |blocks|;
    forall i | 0 < i < |more| ensures BurstsAt(limit, more, pairs, i) {
      assert more[..i] == was[..i];
      BurstsKept(limit, was, more, pairs, i);
    }
    forall i, k | 0 <= i < |more| && 0 < k < |more[i]| ensures FitsAt(limit, more, pairs, i, k) {
      assert more[..i] == was[..i];
      if i == n { DataPrefix(open, [it], k); }
      if i < n || k < |open| {
        FitsKept(limit, was, more, pairs, i, k);
      } else {
        FitsLast(limit, blocks, open, pairs, it);
      }
    }
  }

  lemma FitsLast(limit: nat, blocks: seq<seq<Item>>, open: seq<Item>, pairs: seq<Pair>, it: Item)
    requires |Flatten(blocks + [open])| < |pairs|
    requires var p := pairs[|Flatten(blocks + [open])|]; Need(open, |open|, p.key, p.value) <= limit
    ensures FitsAt(limit, blocks + [open + [it]], pairs, |blocks|, |open|)
  {
    hide Flatten, DataBytes;
    FlattenExtend(blocks, open);
    assert (blocks + [open + [it]])[..|blocks|] == blocks;
    DataPrefix(open, [it], |open|);
  }

  /** All blocks, the open one last. */
  ghost function Parts(blocks: seq<seq<Item>>, current: seq<Item>): seq<seq<Item>> {
    if current == [] then blocks else blocks + [current]
  }

  /** One `add` keeps the blocks packed. */
  lemma PackedNext(limit: nat, blocks: seq<seq<Item>>, current: seq<Item>, pairs: seq<Pair>, it: Item)
    requires Packed(limit, Parts(blocks, current), pairs) && |Flatten(blocks) + current| < |pairs|
    requires current == [] ==> blocks == []
    ensures var p := pairs[|Flatten(blocks) + current|];
            if current != [] && Need(current, |current|, p.key, p.value) > limit
            then Packed(limit, Parts(blocks + [current], [it]), pairs)
            else Packed(limit, Parts(blocks, current + [it]), pairs)
  {
    hide Packed, Need, Flatten, DataBytes;
    var p := pairs[|Flatten(blocks) + current|];
    FlattenExtend(blocks, current);
    if current == [] {
      PackedOpen(limit, blocks, pairs, it);
      assert [] + [it] == [it];
    } else if Need(current, |current|, p.key, p.value) > limit {
      PackedOpen(limit, blocks + [current], pairs, it);
    } else {
      PackedGrow(limit, blocks, current, pairs, it);
    }
  }

  /** Build a table from the pairs in order. */
  method Write(pairs: seq<Pair>, b: Builder, bitsPerKey: Option<nat>, probes: nat) returns (r: Result<Bytes, TableError>)
    requires b.Valid() && b.All() == [] && b.buf == [] && b.entryOffsets == [] && b.index == EMPTY_INDEX && b.blocks == [] && b.current == []
    requires PairsOk(pairs) && pairs != [] && 1 <= probes <= Bloom.MAX_K
    modifies b
    ensures r.Ok? ==>
              && b.current == [] && b.blocks != [] && BlocksOk(b.blocks) && b.All() == ItemsOf(pairs)
              && (forall i :: 0 <= i < |b.blocks| ==> WithinLimit(b.blockSize % U32, b.blocks[i]))
              && Packed(b.blockSize % U32, b.blocks, pairs)
              && r.value == BlocksBytes(b.sum, b.blocks) + Footer(b.sum, b.index)
              && b.index.offsets == IndexEntries(b.sum, b.blocks) && IndexOk(b.index) && |EncodeIndex(b.index)| < U32
              && |BlocksBytes(b.sum, b.blocks)| < U32
              && if bitsPerKey.Some? then FilterOf(b.index.bloom, b.hash, ItemsOf(pairs), bitsPerKey.value, probes)
                 else b.index.bloom == []
    ensures Room(pairs, b.blockSize, bitsPerKey) ==> r.Ok?
    ensures r.Err? ==> r.error == Panicked
  {
    hide BlocksBytes, Footer, IndexEntries, BlockOk, IndexOk, EncodeIndex, Flatten, WithinLimit, FilterOf, Sorted, Builder.Valid, Cost, Packed, Room, ItemsOf, PairsOk, Bloom.Bits;
    var ok := AddAll(pairs, b, bitsPerKey);
    if !ok { return Err(Panicked); }
    r := b.Finish(bitsPerKey, probes);
    FlatEmpty(b.blocks);
    assert Flatten(b.blocks) + [] == Flatten(b.blocks);
    if bitsPerKey.Some? { FilterSize(b.index.bloom, b.hash, ItemsOf(pairs), bitsPerKey.value, probes); }
    if Room(pairs, b.blockSize, bitsPerKey) { RoomForIndex(pairs, b.blockSize, bitsPerKey, b.sum, b.blocks, b.index); }
  }

  /** `add` for every pair; false when one of them panics. */
  method AddAll(pairs: seq<Pair>, b: Builder, ghost bitsPerKey: Option<nat>) returns (ok: bool)
    requires b.Valid() && b.All() == [] && b.buf == [] && b.entryOffsets == [] && b.index == EMPTY_INDEX && b.blocks == [] && b.current == []
    requires PairsOk(pairs) && pairs != []
    modifies b
    ensures ok ==>
              && b.Valid() && b.All() == ItemsOf(pairs) && b.current != []
              && Packed(b.blockSize % U32, Parts(b.blocks, b.current), pairs)
    ensures Room(pairs, b.blockSize, bitsPerKey) ==> ok
  {
    hide Flatten, WithinLimit, Sorted, Encode, Builder.Valid, Builder.Estimate, Builder.Accepts, Cost, Packed, Need, EncodeVarint, CommonPrefix, DataBytes, Room, ItemsOf, Parts, EncodedSize;
    PackedNone(b.blockSize % U32, pairs);
    PartsNone();
    for i := 0 to |pairs|
      invariant b.Valid() && b.All() == ItemsOf(pairs)[..i]
      invariant Packed(b.blockSize % U32, Parts(b.blocks, b.current), pairs)
      invariant if i == 0 then b.blocks == [] else b.current != []
      invariant |b.buf| + 4 * |b.entryOffsets| <= Cost(pairs[..i]) && b.index.estimatedSize <= Cost(pairs[..i])
    {
      CostPrefix(pairs, i);
      assert pairs[i] in pairs;
      RoomToAdd(b, pairs, i, bitsPerKey);
      EncodedSizeIs(pairs[i].value);
      ItemsNext(pairs, i);
      PackedNext(b.blockSize % U32, b.blocks, b.current, pairs, ItemsOf(pairs)[i]);
      ok := b.Add(pairs[i].key, pairs[i].value, 0);
      if !ok { return; }
    }
    assert pairs[..|pairs|] == pairs && ItemsOf(pairs)[..|pairs|] == ItemsOf(pairs);
    ok := true;
  }

  lemma PartsNone()
    ensures Parts([], []) == []
  {}

  lemma ItemsNext(pairs: seq<Pair>, i: nat)
    requires i < |pairs|
    ensures ItemsOf(pairs)[i] == ItemOf(pairs[i].key, pairs[i].value)
    ensures ItemsOf(pairs)[..i + 1] == ItemsOf(pairs)[..i] + [ItemsOf(pairs)[i]]
  {}

  lemma FlatEmpty(blocks: seq<seq<Item>>)
    ensures blocks == [] ==> Flatten(blocks) == []
  {}

  lemma {:induction false} BlockCount(sum: Summer, blocks: seq<seq<Item>>)
    requires BlocksOk(blocks)
    ensures |blocks| <= |BlocksBytes(sum, blocks)|
    decreases |blocks|
  {
    hide EncodeChecksum, OffsetBytes, DataBytes, BE32;
    if blocks != [] {
      var n := |blocks| - 1;
      BlockCount(sum, blocks[..n]);
      EntryAt(blocks[n], 0, |blocks[n]|);
    }
  }

  lemma BuilderRoom(b: Builder, p: Pair, total: nat, peak: nat)
    requires b.Valid() && |p.key| <= MAX_KEY && p.value.expiresAt < U64
    requires |b.buf| + 4 * |b.entryOffsets| + PairCost(p) <= total && b.index.estimatedSize + PairCost(p) <= total
    requires |b.buf| - b.baseOffset <= peak && total + peak + 60 < U32
    ensures b.Accepts(p.key, p.value, 0)
  {
    hide BlocksBytes, IndexEntries, DataBytes, Offsets, Hashes, Flatten, EncodedSize, Encode, Counted, BlockOk, ItemsOk;
    EncodedSizeCovers(p.value);
    CountedBound(if b.Closes(p.key, p.value) then [] else b.baseKey, p);
  }

  lemma RoomToAdd(b: Builder, pairs: seq<Pair>, i: nat, bitsPerKey: Option<nat>)
    requires b.Valid() && i < |pairs| && b.All() == ItemsOf(pairs)[..i] && PairsOk(pairs)
    requires |b.buf| + 4 * |b.entryOffsets| <= Cost(pairs[..i]) && b.index.estimatedSize <= Cost(pairs[..i])
    ensures Room(pairs, b.blockSize, bitsPerKey) ==> b.Accepts(pairs[i].key, pairs[i].value, 0)
  {
    hide Builder.Valid, Builder.Accepts, Cost, Largest, Peak, EncodedSize, Flatten, Sorted, ItemsOf, PairCost;
    CostPrefix(pairs, i);
    assert pairs[i] in pairs;
    if Room(pairs, b.blockSize, bitsPerKey) {
      OpenBlockSize(b, pairs, i);
      BuilderRoom(b, pairs[i], Cost(pairs), Peak(pairs, b.blockSize % U32));
    }
  }

  lemma RoomForIndex(pairs: seq<Pair>, blockSize: nat, bitsPerKey: Option<nat>, sum: Summer, blocks: seq<seq<Item>>, index: TableIndex)
    requires Room(pairs, blockSize, bitsPerKey) && Flatten(blocks) == ItemsOf(pairs)
    requires BlocksOk(blocks) && |BlocksBytes(sum, blocks)| < U32 && index.offsets == IndexEntries(sum, blocks)
    requires index.estimatedSize < U32 && index.maxVersion == index.keyCount == 0 && |index.bloom| == FilterBytes(|pairs|, bitsPerKey)
    ensures |EncodeIndex(index)| < U32 - 1
  {
    hide BlocksBytes, IndexEntries, EncodeIndex, Flatten, Cost, Peak, FilterBytes, BlockOk, ItemsOf, Weight;
    BuiltIndexSize(sum, blocks, index);
    CostCovers(pairs);
  }

  lemma CountedBound(base: Bytes, p: Pair)
    ensures Counted(base, p.key, p.value, 0) <= PairCost(p)
  {}

  /** Rewind, then `next` to the end: what a scan of a table in either direction yields. */
  method ReadAll(t: Table, reversed: bool, ghost blocks: seq<seq<Item>>) returns (items: seq<Item>)
    requires Holds(t, blocks) && |blocks| < USIZE_MAX && Sorted(false, Flatten(blocks))
    ensures items == Directed(reversed, Flatten(blocks))
  {
    hide Holds, Flatten, Sorted, TableIterator.Valid, TableIterator.Placed;
    var it := new TableIterator(t, reversed, blocks);
    it.Rewind();
    items := [];
    while it.HasEntry()
      invariant it.Ready() && fresh(it.Repr()) && it.blocks == blocks && it.reversed == reversed
      invariant it.HasEntry() <==> it.Pos() < |it.Items()|
      invariant items == it.Items()[..it.Pos()]
      decreases |it.Items()| - it.Pos()
    {
      ghost var n := it.Pos();
      var key := it.Key();
      var val := it.Val();
      items := items + [Item(key, val)];
      it.Next();
      assert it.Items()[..n + 1] == it.Items()[..n] + [it.Items()[n]];
    }
    assert it.Items()[..|it.Items()|] == it.Items();
  }

  lemma ItemEnds(pairs: seq<Pair>)
    requires pairs != []
    ensures ItemsOf(pairs)[0].key == pairs[0].key && ItemsOf(pairs)[|pairs| - 1].key == pairs[|pairs| - 1].key
    ensures PairsOk(pairs) ==> Sorted(false, ItemsOf(pairs))
  {}

  /** Write, then open: the table holds exactly the pairs, and knows its first and last key. */
  method Build(pairs: seq<Pair>, blockSize: nat, sum: Summer, hash: Bytes -> nat, bitsPerKey: Option<nat>, probes: nat,
               mode: ChecksumMode) returns (r: Result<Table, TableError>, ghost blocks: seq<seq<Item>>)
    requires SummerOk(sum) && (forall b :: hash(b) < U32)
    requires PairsOk(pairs) && pairs != [] && 1 <= probes <= Bloom.MAX_K
    ensures Room(pairs, blockSize, bitsPerKey) ==> r.Ok?
    ensures r.Ok? ==>
              && Holds(r.value, blocks) && |blocks| < USIZE_MAX && Flatten(blocks) == ItemsOf(pairs)
              && r.value.smallest == pairs[0].key && r.value.biggest == pairs[|pairs| - 1].key
              && (forall i :: 0 <= i < |blocks| && |blocks[i]| >= 2 ==> |BlockBytes(sum, blocks[i])| <= blockSize % U32)
              && Packed(blockSize % U32, blocks, pairs)
              && if bitsPerKey.Some? then FilterOf(r.value.index.bloom, hash, ItemsOf(pairs), bitsPerKey.value, probes)
                 else r.value.index.bloom == []
    ensures r.Err? ==> r.error == Panicked
  {
    hide BlocksBytes, BlockBytes, Footer, IndexEntries, BlockOk, IndexOk, EncodeIndex, Flatten, WithinLimit, FilterOf, Sorted, ReadFooter, Holds, Hashes, Cost, Room, ItemsOf, Builder.Valid, Packed, ReadBlock, BlockGood, LastOk, FirstKey;
    var b := new Builder(blockSize, sum, hash);
    var w := Write(pairs, b, bitsPerKey, probes);
    blocks := b.blocks;
    if w.Err? { return Err(Panicked), blocks; }
    BuiltIsReadable(sum, blocks, b.index, mode);
    assert Flatten(blocks) + [] == Flatten(blocks);
    BlockCount(sum, blocks);
    ItemEnds(pairs);
    forall i | 0 <= i < |blocks| && |blocks[i]| >= 2 ensures |BlockBytes(sum, blocks[i])| <= blockSize % U32 {
      BlockSizeBound(sum, blockSize % U32, blocks[i]);
    }
    ghost var t := Unopened(sum, w.value, b.index, mode);
    HeldOpens(t, blocks);
    FlatNotEmpty(t, blocks);
    r := Open(sum, w.value, mode, blocks[|blocks| - 1]);
    HoldsFrame(t, blocks, r.value.smallest, r.value.biggest);
  }

  /** Ask a table just built whether it lacks the user key of its i-th pair: with a filter below 2^32 bits,
      or none, it never says so. */
  method BuildThenAsk(pairs: seq<Pair>, blockSize: nat, sum: Summer, hash: Bytes -> nat, bitsPerKey: Option<nat>, probes: nat,
                      mode: ChecksumMode, i: nat) returns (r: Result<Bloom.Reply, TableError>)
    requires SummerOk(sum) && (forall b :: hash(b) < U32)
    requires PairsOk(pairs) && i < |pairs| && 1 <= probes <= Bloom.MAX_K
    ensures Room(pairs, blockSize, bitsPerKey) ==> r.Ok?
    ensures r.Ok? && (bitsPerKey.Some? ==> Bloom.Bits(|pairs|, bitsPerKey.value) < U32) ==> r.value == Bloom.Said(false)
  {
    hide Holds, Flatten, FilterOf, PairsOk, Room, Hashes, BlockBytes, Bloom.Bits, Packed;
    ghost var blocks;
    var t;
    t, blocks := Build(pairs, blockSize, sum, hash, bitsPerKey, probes, mode);
    if t.Err? { return Err(t.error); }
    ghost var it := ItemsOf(pairs)[i];
    assert UserKey(it.key) == UserKey(pairs[i].key) && it in ItemsOf(pairs);
    var absent := DoesNotHave(t.value, hash(UserKey(pairs[i].key)));
    if bitsPerKey.Some? && Bloom.Bits(|pairs|, bitsPerKey.value) < U32 {
      NeverLosesAKey(t.value.index.bloom, hash, ItemsOf(pairs), bitsPerKey.value, probes, it);
    }
    r := Ok(absent);
  }

  /** The round trip: pairs added in key order, finished, opened and scanned come back with their stored values,
      in order (or in reverse), for every block size, checksum mode and filter setting. */
  method WriteThenRead(pairs: seq<Pair>, blockSize: nat, sum: Summer, hash: Bytes -> nat, bitsPerKey: Option<nat>, probes: nat,
                       mode: ChecksumMode, reversed: bool) returns (r: Result<seq<Item>, TableError>)
    requires SummerOk(sum) && (forall b :: hash(b) < U32)
    requires PairsOk(pairs) && pairs != [] && 1 <= probes <= Bloom.MAX_K
    ensures Room(pairs, blockSize, bitsPerKey) ==> r.Ok?
    ensures r.Ok? ==> r.value == Directed(reversed, ItemsOf(pairs))
    ensures r.Err? ==> r.error == Panicked
  {
    hide Flatten, Sorted, Holds, Cost, Room, PairsOk, BlockBytes, FilterOf, Packed;
    ghost var blocks;
    var t;
    t, blocks := Build(pairs, blockSize, sum, hash, bitsPerKey, probes, mode);
    if t.Err? { return Err(Panicked); }
    ItemEnds(pairs);
    var items := ReadAll(t.value, reversed, blocks);
    return Ok(items);
  }
}
