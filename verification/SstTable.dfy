/** A table's footer and its blocks: what the builder appends and what src/table.rs reads back. */
module SstTable {
  import opened Wrappers
  import opened Bytes
  import opened Proto
  import opened SstFormat

  datatype ChecksumMode = NoVerification | OnTableRead | OnBlockRead | OnTableAndBlockRead

  const XXHASH64: nat := 1

  /** `verify_checksum`; an unknown algorithm number is a panic in the source. */
  function VerifyChecksum(sum: Summer, data: Bytes, c: Checksum): Result<(), TableError> {
    if c.algo != CRC32C && c.algo != XXHASH64 then Err(Panicked)
    else if sum(c.algo, data) == c.sum then Ok(())
    else Err(ChecksumMismatch)
  }

  datatype Table = Table(data: Bytes, index: TableIndex, smallest: Bytes, biggest: Bytes, mode: ChecksumMode, sum: Summer)

  // ------------------------------------------------------------ writing

  function BlocksBytes(sum: Summer, blocks: seq<seq<Item>>): Bytes {
    if blocks == [] then [] else BlocksBytes(sum, blocks[..|blocks| - 1]) + BlockBytes(sum, blocks[|blocks| - 1])
  }

  /** The index entry of a block placed at `offset`. */
  function IndexEntry(sum: Summer, items: seq<Item>, offset: nat): BlockOffset
    requires items != []
  {
    BlockOffset(items[0].key, offset, |BlockBytes(sum, items)|)
  }

  function IndexEntries(sum: Summer, blocks: seq<seq<Item>>): (es: seq<BlockOffset>)
    requires forall i :: 0 <= i < |blocks| ==> blocks[i] != []
    ensures |es| == |blocks|
  {
    if blocks == [] then [] else
    var n := |blocks| - 1;
    IndexEntries(sum, blocks[..n]) + [IndexEntry(sum, blocks[n], |BlocksBytes(sum, blocks[..n])|)]
  }

  function Footer(sum: Summer, index: TableIndex): Bytes {
    var b := EncodeIndex(index);
    b + (BE32(|b|) + Trailer(sum, b))
  }

  ghost predicate BlocksOk(blocks: seq<seq<Item>>) { forall i :: 0 <= i < |blocks| ==> BlockOk(blocks[i]) }

  // ------------------------------------------------------------ reading

  /** `init_index`. `read_pos` only moves down; a subtraction below zero is a panic. */
  function ReadFooter(sum: Summer, data: Bytes): Result<TableIndex, TableError> {
    if |data| < 4 then Err(Panicked) else
    var at := |data| - 4;
    var sumLen := FromBE32(data[at..]);
    if at < sumLen then Err(Panicked) else
    var at := at - sumLen;
    match DecodeChecksum(data[at..at + sumLen])
    case None => Err(Undecodable)
    case Some(c) =>
      if at < 4 then Err(Panicked) else
      var at := at - 4;
      var indexLen := FromBE32(data[at..at + 4]);
      if at < indexLen then Err(Panicked) else
      var bytes := data[at - indexLen..at];
      var _ :- VerifyChecksum(sum, bytes, c);
      match DecodeIndex(bytes)
      case None => Err(Undecodable)
      case Some(index) => if index.offsets == [] then Err(Panicked) else Ok(index)
  }

  /** `block` */
  function ReadBlock(t: Table, i: nat): Result<Block, TableError> {
    if i >= |t.index.offsets| then Err(BlockIndex) else
    var e := t.index.offsets[i];
    if e.offset + e.len > |t.data| then Err(OutOfRange) else
    var block :- ParseBlock(t.data[e.offset..e.offset + e.len]);
    if t.mode == OnBlockRead || t.mode == OnTableAndBlockRead then
      var _ :- VerifyBlock(t.sum, block);
      Ok(block)
    else
      Ok(block)
  }

  function VerifyBlock(sum: Summer, block: Block): Result<(), TableError> {
    match DecodeChecksum(block.checksum)
    case None => Err(Undecodable)
    case Some(c) => VerifyChecksum(sum, block.data, c)
  }

  // ------------------------------------------------------------ what reading accepts

  /** The stored message names a known algorithm whose sum over these bytes is the stored one. */
  predicate SumIs(sum: Summer, data: Bytes, message: Bytes) {
    match DecodeChecksum(message)
    case None => false
    case Some(c) => (c.algo == 0 || c.algo == 1) && sum(c.algo, data) == c.sum
  }

  /** The message can be checked, and its sum is not that of the bytes. */
  predicate SumDiffers(sum: Summer, data: Bytes, message: Bytes) {
    match DecodeChecksum(message)
    case None => false
    case Some(c) => (c.algo == 0 || c.algo == 1) && sum(c.algo, data) != c.sum
  }

  predicate ChecksOnRead(mode: ChecksumMode) { mode == OnBlockRead || mode == OnTableAndBlockRead }

  /** `block` succeeds exactly for an index entry inside the file that cuts out a well-formed block, with the
      right checksum when the mode asks for it on reading. */
  lemma ReadBlockIs(t: Table, i: nat, b: Block)
    ensures ReadBlock(t, i) == Ok(b) <==>
      && i < |t.index.offsets|
      && var e := t.index.offsets[i];
      && e.offset + e.len <= |t.data|
      && LaidOut(t.data[e.offset..e.offset + e.len], b)
      && (ChecksOnRead(t.mode) ==> SumIs(t.sum, b.data, b.checksum))
  {
    hide ParseBlock, DecodeChecksum, LaidOut;
    if i < |t.index.offsets| {
      var e := t.index.offsets[i];
      if e.offset + e.len <= |t.data| { ParseBlockIs(t.data[e.offset..e.offset + e.len], b); }
    }
  }

  /** A damaged block is refused as such in the modes that check on reading. */
  lemma DamagedBlock(t: Table, i: nat, b: Block)
    requires i < |t.index.offsets| && ChecksOnRead(t.mode) && SumDiffers(t.sum, b.data, b.checksum)
    requires var e := t.index.offsets[i];
             e.offset + e.len <= |t.data| && LaidOut(t.data[e.offset..e.offset + e.len], b)
    ensures ReadBlock(t, i) == Err(ChecksumMismatch)
  {
    hide ParseBlock, DecodeChecksum, LaidOut;
    var e := t.index.offsets[i];
    ParseBlockIs(t.data[e.offset..e.offset + e.len], b);
  }

  /** The layout of a file's end: the index, its length, the checksum message and its length. */
  predicate FooterLayout(data: Bytes, prefix: Bytes, index: Bytes, message: Bytes) {
    && |index| < U32 && |message| < U32
    && data == prefix + index + BE32(|index|) + message + BE32(|message|)
  }

  /** `init_index` succeeds exactly on that layout, for an index that decodes, is not empty and has the stored sum. */
  lemma ReadFooterIs(sum: Summer, data: Bytes, index: TableIndex)
    ensures ReadFooter(sum, data) == Ok(index) <==>
      exists prefix, bytes, message :: FooterLayout(data, prefix, bytes, message) && FooterOk(sum, bytes, message, index)
  {
    hide BE32, FromBE32, DecodeChecksum, DecodeIndex, ReadFooter, FooterLayout, FooterOk;
    if ReadFooter(sum, data) == Ok(index) {
      var prefix, bytes, message := FooterFound(sum, data, index);
    }
    if prefix, bytes, message :| FooterLayout(data, prefix, bytes, message) && FooterOk(sum, bytes, message, index) {
      FooterRead(sum, data, prefix, bytes, message);
      FooterAccepted(sum, bytes, message, index);
    }
  }

  predicate FooterOk(sum: Summer, bytes: Bytes, message: Bytes, index: TableIndex) {
    SumIs(sum, bytes, message) && DecodeIndex(bytes) == Some(index) && index.offsets != []
  }

  /** What becomes of an index that has been located. */
  function FooterOutcome(sum: Summer, bytes: Bytes, message: Bytes): Result<TableIndex, TableError> {
    match DecodeChecksum(message)
    case None => Err(Undecodable)
    case Some(c) =>
      if c.algo != CRC32C && c.algo != XXHASH64 then Err(Panicked)
      else if sum(c.algo, bytes) != c.sum then Err(ChecksumMismatch)
      else
        match DecodeIndex(bytes)
        case None => Err(Undecodable)
        case Some(index) => if index.offsets == [] then Err(Panicked) else Ok(index)
  }

  lemma FooterAccepted(sum: Summer, bytes: Bytes, message: Bytes, index: TableIndex)
    ensures FooterOutcome(sum, bytes, message) == Ok(index) <==> FooterOk(sum, bytes, message, index)
    ensures SumDiffers(sum, bytes, message) ==> FooterOutcome(sum, bytes, message) == Err(ChecksumMismatch)
  {
    hide DecodeChecksum, DecodeIndex;
  }

  lemma FooterRead(sum: Summer, data: Bytes, prefix: Bytes, bytes: Bytes, message: Bytes)
    requires FooterLayout(data, prefix, bytes, message)
    ensures ReadFooter(sum, data) == FooterOutcome(sum, bytes, message)
  {
    hide BE32, FromBE32, DecodeChecksum, DecodeIndex;
    BE32RoundTrip(|message|);
    BE32RoundTrip(|bytes|);
    Pieces(data, prefix, bytes, BE32(|bytes|), message, BE32(|message|));
  }

  /** A damaged index is refused as such. */
  lemma DamagedIndex(sum: Summer, data: Bytes, prefix: Bytes, bytes: Bytes, message: Bytes)
    requires FooterLayout(data, prefix, bytes, message) && SumDiffers(sum, bytes, message)
    ensures ReadFooter(sum, data) == Err(ChecksumMismatch)
  {
    hide BE32, DecodeChecksum, DecodeIndex, FooterLayout, ReadFooter;
    FooterRead(sum, data, prefix, bytes, message);
    FooterAccepted(sum, bytes, message, EMPTY_INDEX);
  }

  lemma FooterFound(sum: Summer, data: Bytes, index: TableIndex) returns (prefix: Bytes, bytes: Bytes, message: Bytes)
    requires ReadFooter(sum, data) == Ok(index)
    ensures FooterLayout(data, prefix, bytes, message) && FooterOk(sum, bytes, message, index)
  {
    hide BE32, FromBE32, DecodeChecksum, DecodeIndex;
    var end := |data| - 4;
    var len := FromBE32(data[end..]);
    var at := end - len - 4;
    var size := FromBE32(data[at..at + 4]);
    BE32Bytes(data[end..]);
    BE32Bytes(data[at..at + 4]);
    prefix, bytes, message := data[..at - size], data[at - size..at], data[at + 4..end];
    assert data == prefix + bytes + data[at..at + 4] + message + data[end..];
  }

  // ------------------------------------------------------------ reading undoes writing

  /** The table's index and blocks read back as these lists of items. */
  ghost predicate Holds(t: Table, blocks: seq<seq<Item>>) {
    && 0 < |blocks| == |t.index.offsets|
    && BlocksOk(blocks)
    && forall i {:trigger blocks[i]} :: 0 <= i < |blocks| ==>
         ReadBlock(t, i) == Ok(BlockOf(t.sum, blocks[i])) && t.index.offsets[i].key == blocks[i][0].key
  }

  lemma FooterRoundTrip(sum: Summer, prefix: Bytes, index: TableIndex)
    requires SummerOk(sum) && IndexOk(index) && index.offsets != [] && |EncodeIndex(index)| < U32
    ensures ReadFooter(sum, prefix + Footer(sum, index)) == Ok(index)
  {
    hide EncodeIndex, DecodeIndex, EncodeChecksum, DecodeChecksum, BE32, FromBE32;
    var b := EncodeIndex(index);
    var c := Checksum(CRC32C, sum(CRC32C, b));
    var msg := EncodeChecksum(c);
    var data := prefix + Footer(sum, index);
    TrailerBytes(sum, b);
    IndexRoundTrip(index);
    BE32RoundTrip(|msg|);
    BE32RoundTrip(|b|);
    assert data == prefix + (b + (BE32(|b|) + (msg + BE32(|msg|))));
    assert data[|data| - 4..] == BE32(|msg|);
    assert data[|data| - 4 - |msg|..|data| - 4] == msg;
    assert data[|prefix| + |b|..|prefix| + |b| + 4] == BE32(|b|);
    assert data[|prefix|..|prefix| + |b|] == b;
  }

  lemma {:induction false} BlockPlace(sum: Summer, blocks: seq<seq<Item>>, i: nat)
    requires i < |blocks| && forall k :: 0 <= k < |blocks| ==> blocks[k] != []
    ensures var at := |BlocksBytes(sum, blocks[..i])|;
            && IndexEntries(sum, blocks)[i] == IndexEntry(sum, blocks[i], at)
            && at + |BlockBytes(sum, blocks[i])| <= |BlocksBytes(sum, blocks)|
            && BlocksBytes(sum, blocks)[at..at + |BlockBytes(sum, blocks[i])|] == BlockBytes(sum, blocks[i])
    decreases |blocks|
  {
    hide BlockBytes;
    var n := |blocks| - 1;
    if i < n {
      BlockPlace(sum, blocks[..n], i);
      assert blocks[..n][..i] == blocks[..i];
    } else {
      assert blocks[..i] == blocks[..n];
    }
  }

  lemma VerifyOwnBlock(sum: Summer, items: seq<Item>)
    requires SummerOk(sum)
    ensures VerifyBlock(sum, BlockOf(sum, items)) == Ok(())
  {
    hide EncodeChecksum, DecodeChecksum;
    TrailerBytes(sum, BlockOf(sum, items).data);
  }

  /** Blocks written one after another are found again through the index, whatever follows them. */
  lemma TableHolds(t: Table, blocks: seq<seq<Item>>, rest: Bytes)
    requires SummerOk(t.sum) && blocks != [] && BlocksOk(blocks)
    requires t.data == BlocksBytes(t.sum, blocks) + rest
    requires t.index.offsets == IndexEntries(t.sum, blocks)
    ensures Holds(t, blocks)
  {
    hide BlockBytes, BlockOf, ParseBlock, VerifyBlock, IndexEntries, BlocksBytes;
    forall i | 0 <= i < |blocks|
      ensures ReadBlock(t, i) == Ok(BlockOf(t.sum, blocks[i])) && t.index.offsets[i].key == blocks[i][0].key
    {
      BlockPlace(t.sum, blocks, i);
      BlockRoundTrip(t.sum, blocks[i]);
      VerifyOwnBlock(t.sum, blocks[i]);
      var at := |BlocksBytes(t.sum, blocks[..i])|;
      assert t.data[at..at + |BlockBytes(t.sum, blocks[i])|] == BlockBytes(t.sum, blocks[i]);
    }
  }

  lemma {:induction false} IndexEntriesOk(sum: Summer, blocks: seq<seq<Item>>)
    requires BlocksOk(blocks) && |BlocksBytes(sum, blocks)| < U32
    ensures forall e :: e in IndexEntries(sum, blocks) ==> BlockOffsetOk(e)
    decreases |blocks|
  {
    hide BlockBytes;
    if blocks != [] {
      var n := |blocks| - 1;
      IndexEntriesOk(sum, blocks[..n]);
      assert blocks[n][0] in blocks[n] && ItemOk(blocks[n][0]);
    }
  }
}
