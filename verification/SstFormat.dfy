/** The bytes of an SST: prefix-compressed blocks and the footer around the index. */
module SstFormat {
  import opened Wrappers
  import opened Bytes
  import opened Keys
  import opened Proto

  const HEADER_SIZE: nat := 4
  const MAX_KEY: nat := 65535

  /** One entry of a table; `value` is the encoded Value. */
  datatype Item = Item(key: Key, value: Bytes)

  predicate ItemOk(it: Item) { |it.key| <= MAX_KEY }

  /** `calculate_checksum`, by algorithm number. CRC32C has 32 bits. */
  type Summer = (nat, Bytes) -> nat

  ghost predicate SummerOk(sum: Summer) { forall b: Bytes :: sum(CRC32C, b) < U32 }

  // ------------------------------------------------------------ entries

  /** What `bytes_diff` measures. */
  function CommonPrefix(a: Bytes, b: Bytes): (n: nat)
    ensures n <= |a| && n <= |b| && a[..n] == b[..n]
    ensures n < |a| && n < |b| ==> a[n] != b[n]
  {
    if a == [] || b == [] || a[0] != b[0] then 0 else 1 + CommonPrefix(a[1..], b[1..])
  }

  /** `add_helper`: the first key of a block, when there is no base key yet, is stored whole. */
  function OverlapWith(base: Bytes, key: Key): (n: nat)
    ensures n <= |key| && n <= |base| && key[..n] == base[..n]
  {
    if base == [] then 0 else CommonPrefix(base, key)
  }

  function HeaderBytes(overlap: nat, diff: nat): Bytes { LE32(overlap % 65536 * 65536 + diff % 65536) }

  /** `Header::decode` */
  function HeaderOf(b: Bytes): (nat, nat)
    requires |b| >= HEADER_SIZE
  {
    var h := FromLE32(b[..HEADER_SIZE]);
    (h / 65536, h % 65536)
  }

  lemma HeaderRoundTrip(overlap: nat, diff: nat, rest: Bytes)
    requires overlap <= MAX_KEY && diff <= MAX_KEY
    ensures HeaderOf(HeaderBytes(overlap, diff) + rest) == (overlap, diff)
  {
    hide LE32, FromLE32;
    var h := overlap * 65536 + diff;
    LE32RoundTrip(h);
    assert (LE32(h) + rest)[..4] == LE32(h);
    assert h / 65536 == overlap && h % 65536 == diff;
  }

  /** The four header bytes: the difference's length, then the overlap, each least significant byte first. */
  lemma HeaderLayout(overlap: nat, diff: nat)
    requires overlap <= MAX_KEY && diff <= MAX_KEY
    ensures var b := HeaderBytes(overlap, diff);
            && |b| == 4 && b[0] as int + 256 * b[1] as int == diff && b[2] as int + 256 * b[3] as int == overlap
  {
    hide LE32, FromLE32;
    var h := overlap * 65536 + diff;
    var b := LE32(h);
    LE32RoundTrip(h);
    LE32Bytes(b);
    Halves(diff, overlap, b[0] as nat + 256 * b[1] as nat, b[2] as nat + 256 * b[3] as nat);
  }

  lemma Halves(a: nat, b: nat, c: nat, d: nat)
    requires a < 65536 && c < 65536 && a + 65536 * b == c + 65536 * d
    ensures a == c && b == d
  {}

  ghost predicate ItemsOk(items: seq<Item>) { forall it :: it in items ==> ItemOk(it) }

  /** Layout: header, differing part of the key, value. */
  function EntryOf(base: Bytes, it: Item): (b: Bytes)
    ensures |b| >= HEADER_SIZE
  {
    var n := OverlapWith(base, it.key);
    HeaderBytes(n, |it.key| - n) + (it.key[n..] + it.value)
  }

  function BaseFor(items: seq<Item>, i: nat): Bytes
    requires i < |items|
  {
    if i == 0 then [] else items[0].key
  }

  function EntryBytes(items: seq<Item>, i: nat): (b: Bytes)
    requires i < |items|
    ensures |b| >= HEADER_SIZE
  {
    EntryOf(BaseFor(items, i), items[i])
  }

  /** An entry in full: header, the rest of the key after what it shares with the block's first key, the value. */
  lemma EntryLayout(items: seq<Item>, i: nat)
    requires i < |items|
    ensures var key, n := items[i].key, if i == 0 then 0 else CommonPrefix(items[0].key, items[i].key);
            EntryBytes(items, i) == HeaderBytes(n, |key| - n) + key[n..] + items[i].value
  {
    hide HeaderBytes, CommonPrefix;
  }

  function DataBytes(items: seq<Item>, n: nat): Bytes
    requires n <= |items|
  {
    if n == 0 then [] else DataBytes(items, n - 1) + EntryBytes(items, n - 1)
  }

  function Offset(items: seq<Item>, n: nat): nat
    requires n <= |items|
  {
    |DataBytes(items, n)|
  }

  /** Appending an item leaves the earlier entries of the block as they are. */
  lemma {:induction false} DataPrefix(items: seq<Item>, more: seq<Item>, n: nat)
    requires n <= |items|
    ensures DataBytes(items + more, n) == DataBytes(items, n)
  {
    hide EntryOf;
    if n > 0 {
      DataPrefix(items, more, n - 1);
      assert (items + more)[n - 1] == items[n - 1] && (items + more)[0] == items[0];
    }
  }

  /** Entry i sits between its offset and the next one. */
  lemma {:induction false} EntryAt(items: seq<Item>, i: nat, n: nat)
    requires i < n <= |items|
    ensures Offset(items, i + 1) == Offset(items, i) + |EntryBytes(items, i)| <= Offset(items, n)
    ensures DataBytes(items, n)[Offset(items, i)..Offset(items, i + 1)] == EntryBytes(items, i)
  {
    hide EntryBytes;
    var d := DataBytes(items, n - 1);
    assert DataBytes(items, n) == d + EntryBytes(items, n - 1);
    if i + 1 < n {
      EntryAt(items, i, n - 1);
      assert DataBytes(items, n)[Offset(items, i)..Offset(items, i + 1)] == d[Offset(items, i)..Offset(items, i + 1)];
    }
  }

  // ------------------------------------------------------------ blocks

  function OffsetBytes(offsets: seq<nat>): (b: Bytes)
    ensures |b| == 4 * |offsets|
  {
    if offsets == [] then [] else OffsetBytes(offsets[..|offsets| - 1]) + LE32(offsets[|offsets| - 1])
  }

  function Offsets(items: seq<Item>): (os: seq<nat>)
    ensures |os| == |items|
  {
    seq(|items|, i requires 0 <= i < |items| => Offset(items, i))
  }

  /** Everything the checksum of a block covers. */
  function BodyBytes(data: Bytes, offsets: seq<nat>): Bytes
  {
    data + (OffsetBytes(offsets) + BE32(|offsets|))
  }

  function Trailer(sum: Summer, body: Bytes): Bytes
  {
    var msg := EncodeChecksum(Checksum(CRC32C, sum(CRC32C, body)));
    msg + BE32(|msg|)
  }

  lemma TrailerBytes(sum: Summer, body: Bytes)
    requires SummerOk(sum)
    ensures |EncodeChecksum(Checksum(CRC32C, sum(CRC32C, body)))| <= 6
    ensures DecodeChecksum(EncodeChecksum(Checksum(CRC32C, sum(CRC32C, body)))) == Some(Checksum(CRC32C, sum(CRC32C, body)))
  {
    ChecksumRoundTrip(Checksum(CRC32C, sum(CRC32C, body)));
  }

  /** A block the format can hold: not empty, keys in bounds, below 4 GiB. */
  ghost predicate BlockOk(items: seq<Item>) {
    items != [] && |items| < U32 && ItemsOk(items) && Offset(items, |items|) < U32
  }

  lemma OffsetsBounded(items: seq<Item>)
    requires BlockOk(items)
    ensures forall i :: 0 <= i < |items| ==> Offsets(items)[i] < U32
  {
    forall i | 0 <= i < |items| ensures Offset(items, i) < U32 { EntryAt(items, i, |items|); }
  }

  function BlockBytes(sum: Summer, items: seq<Item>): Bytes {
    var body := BodyBytes(DataBytes(items, |items|), Offsets(items));
    body + Trailer(sum, body)
  }

  datatype Block = Block(data: Bytes, checksum: Bytes, entriesIndexStart: nat, entryOffsets: seq<nat>)

  datatype TableError = OutOfRange | BlockIndex | ChecksumLength | Undecodable | ChecksumMismatch | NoBiggest | Panicked

  function ReadOffsets(b: Bytes, n: nat): (os: seq<nat>)
    requires |b| == 4 * n
    ensures |os| == n
  {
    if n == 0 then [] else ReadOffsets(b[..4 * (n - 1)], n - 1) + [FromLE32(b[4 * (n - 1)..])]
  }

  /** `block`, from the block's bytes on; Panicked where a subtraction or a slice goes out of bounds. */
  function ParseBlock(data: Bytes): Result<Block, TableError> {
    if |data| < 4 then Err(Panicked) else
    var at := |data| - 4;
    var len := FromBE32(data[at..]);
    if len > |data| then Err(ChecksumLength)
    else if len > at then Err(Panicked) else
    var at := at - len;
    var checksum := data[at..at + len];
    if at < 4 then Err(Panicked) else
    var at := at - 4;
    var n := FromBE32(data[at..at + 4]);
    if at < n * 4 then Err(Panicked) else
    Ok(Block(data[..at + 4], checksum, at - n * 4, ReadOffsets(data[at - n * 4..at], n)))
  }

  lemma {:induction false} OffsetsRoundTrip(offsets: seq<nat>)
    requires forall i :: 0 <= i < |offsets| ==> offsets[i] < U32
    ensures ReadOffsets(OffsetBytes(offsets), |offsets|) == offsets
  {
    if offsets != [] {
      var n := |offsets| - 1;
      var b := OffsetBytes(offsets);
      assert b[..4 * n] == OffsetBytes(offsets[..n]) && b[4 * n..] == LE32(offsets[n]);
      LE32RoundTrip(offsets[n]);
      OffsetsRoundTrip(offsets[..n]);
      assert offsets == offsets[..n] + [offsets[n]];
    }
  }

  lemma {:induction false} OffsetsInverse(b: Bytes, n: nat)
    requires |b| == 4 * n
    ensures OffsetBytes(ReadOffsets(b, n)) == b
    ensures forall i :: 0 <= i < n ==> ReadOffsets(b, n)[i] < U32
  {
    if n > 0 {
      OffsetsInverse(b[..4 * (n - 1)], n - 1);
      LE32Bytes(b[4 * (n - 1)..]);
      var os := ReadOffsets(b, n);
      assert os[..n - 1] == ReadOffsets(b[..4 * (n - 1)], n - 1);
      assert b == b[..4 * (n - 1)] + b[4 * (n - 1)..];
    }
  }

  /** The layout of a block: entries, their offsets, how many, the checksum message and its length. */
  ghost predicate BlockLayout(data: Bytes, entries: Bytes, offsets: seq<nat>, checksum: Bytes) {
    && |offsets| < U32 && |checksum| < U32 && (forall i :: 0 <= i < |offsets| ==> offsets[i] < U32)
    && data == entries + OffsetBytes(offsets) + BE32(|offsets|) + checksum + BE32(|checksum|)
  }

  ghost predicate LaidOut(data: Bytes, b: Block) {
    exists entries :: BlockLayout(data, entries, b.entryOffsets, b.checksum) && b == BlockIn(entries, b.entryOffsets, b.checksum)
  }

  function BlockIn(entries: Bytes, offsets: seq<nat>, checksum: Bytes): Block {
    Block(entries + OffsetBytes(offsets) + BE32(|offsets|), checksum, |entries|, offsets)
  }

  /** The reader takes a block apart exactly along that layout, and refuses all other bytes. */
  lemma ParseBlockIs(data: Bytes, b: Block)
    ensures ParseBlock(data) == Ok(b) <==> LaidOut(data, b)
  {
    hide OffsetBytes, ReadOffsets, BE32, FromBE32, ParseBlock, BlockLayout, BlockIn;
    if ParseBlock(data) == Ok(b) {
      var entries := ParsedLayout(data, b);
    }
    if entries :| BlockLayout(data, entries, b.entryOffsets, b.checksum) && b == BlockIn(entries, b.entryOffsets, b.checksum) {
      LayoutParses(data, entries, b.entryOffsets, b.checksum);
    }
  }

  /** The one error that is reported rather than a panic: a checksum said to be longer than the block. */
  lemma ChecksumTooLong(data: Bytes)
    ensures ParseBlock(data) == Err(ChecksumLength) <==> |data| >= 4 && FromBE32(data[|data| - 4..]) > |data|
  {
    hide ReadOffsets, FromBE32;
  }

  lemma ParsedLayout(data: Bytes, b: Block) returns (entries: Bytes)
    requires ParseBlock(data) == Ok(b)
    ensures BlockLayout(data, entries, b.entryOffsets, b.checksum)
    ensures b == BlockIn(entries, b.entryOffsets, b.checksum)
  {
    hide OffsetBytes, ReadOffsets, BE32, FromBE32;
    var end := |data| - 4;
    var len := FromBE32(data[end..]);
    var at := end - len - 4;
    var n := FromBE32(data[at..at + 4]);
    BE32Bytes(data[end..]);
    BE32Bytes(data[at..at + 4]);
    OffsetsInverse(data[at - n * 4..at], n);
    entries := data[..at - n * 4];
    assert data[..at + 4] == entries + data[at - n * 4..at] + data[at..at + 4];
    assert data == data[..at + 4] + data[at + 4..end] + data[end..];
  }

  lemma LayoutParses(data: Bytes, entries: Bytes, offsets: seq<nat>, checksum: Bytes)
    requires BlockLayout(data, entries, offsets, checksum)
    ensures ParseBlock(data) == Ok(BlockIn(entries, offsets, checksum))
  {
    hide OffsetBytes, ReadOffsets, BE32, FromBE32;
    BE32RoundTrip(|checksum|);
    BE32RoundTrip(|offsets|);
    OffsetsRoundTrip(offsets);
    Pieces(data, entries, OffsetBytes(offsets), BE32(|offsets|), checksum, BE32(|checksum|));
  }

  lemma Pieces(data: Bytes, a: Bytes, b: Bytes, c: Bytes, d: Bytes, e: Bytes)
    requires data == a + b + c + d + e && |c| == |e| == 4
    ensures var at := |a| + |b| + 4 + |d|;
            && |data| == at + 4 && data[at..] == e && data[at - |d|..at] == d && data[at - |d| - 4..at - |d|] == c
            && data[|a|..|a| + |b|] == b && data[..at - |d|] == a + b + c
  {}

  /** What reading back a block of these items gives. */
  function BlockOf(sum: Summer, items: seq<Item>): Block {
    var data := DataBytes(items, |items|);
    var body := BodyBytes(data, Offsets(items));
    Block(body, EncodeChecksum(Checksum(CRC32C, sum(CRC32C, body))), |data|, Offsets(items))
  }

  /** Reading a block undoes writing it. */
  lemma BlockRoundTrip(sum: Summer, items: seq<Item>)
    requires SummerOk(sum) && BlockOk(items)
    ensures ParseBlock(BlockBytes(sum, items)) == Ok(BlockOf(sum, items))
  {
    hide DataBytes, OffsetBytes, EncodeChecksum, DecodeChecksum, ReadOffsets, LE32, BE32, FromBE32, Offsets, FromLE32;
    OffsetsBounded(items);
    var d, os := DataBytes(items, |items|), Offsets(items);
    var body := BodyBytes(d, os);
    var msg := EncodeChecksum(Checksum(CRC32C, sum(CRC32C, body)));
    TrailerBytes(sum, body);
    var b := BlockBytes(sum, items);
    assert b == body + (msg + BE32(|msg|));
    BE32RoundTrip(|msg|);
    BE32RoundTrip(|os|);
    OffsetsRoundTrip(os);
    var at := |body| + |msg|;
    assert b[at..] == BE32(|msg|);
    assert b[|body|..at] == msg;
    assert b[|body| - 4..|body|] == BE32(|os|);
    assert b[|d|..|body| - 4] == OffsetBytes(os);
    assert b[..|body|] == body;
  }
}
