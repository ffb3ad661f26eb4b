/** The protobuf messages an SST carries: Checksum and TableIndex of proto/src/proto/meta.proto. */
module Proto {
  import opened Wrappers
  import opened Bytes

  // ------------------------------------------------------------ wire format

  datatype Field = VarField(tag: nat, v: nat) | LenField(tag: nat, data: Bytes)

  predicate FieldOk(f: Field) {
    0 < f.tag < 0x1000_0000 && if f.VarField? then f.v < U64 else |f.data| < U64
  }

  function EncodeField(f: Field): (b: Bytes)
    ensures b != []
  {
    match f
    case VarField(tag, v) => EncodeVarint(tag * 8) + EncodeVarint(v)
    case LenField(tag, data) => EncodeVarint(tag * 8 + 2) + (EncodeVarint(|data|) + data)
  }

  function EncodeFields(fs: seq<Field>): Bytes {
    if fs == [] then [] else EncodeField(fs[0]) + EncodeFields(fs[1..])
  }

  /** One key and payload; wire types other than varint and length-delimited do not occur in these messages. */
  function DecodeField(b: Bytes): Option<(Field, Bytes)> {
    match DecodeVarint(b)
    case None => None
    case Some((key, rest)) =>
      if key / 8 == 0 || key >= U32 then None
      else
        match DecodeVarint(rest)
        case None => None
        case Some((v, rest')) =>
          if key % 8 == 0 then Some((VarField(key / 8, v), rest'))
          else if key % 8 == 2 && v <= |rest'| then Some((LenField(key / 8, rest'[..v]), rest'[v..]))
          else None
  }

  lemma FieldShrinks(b: Bytes)
    ensures DecodeField(b).Some? ==> |DecodeField(b).value.1| < |b|
  {
    DigitsShrink(b, MAX_VARINT);
    if DecodeVarint(b).Some? { DigitsShrink(DecodeVarint(b).value.1, MAX_VARINT); }
  }

  function DecodeFields(b: Bytes): Option<seq<Field>>
    decreases |b|
  {
    if b == [] then Some([]) else
    FieldShrinks(b);
    match DecodeField(b)
    case None => None
    case Some((f, rest)) =>
      match DecodeFields(rest)
      case None => None
      case Some(fs) => Some([f] + fs)
  }

  lemma FieldRoundTrip(f: Field, rest: Bytes)
    requires FieldOk(f)
    ensures DecodeField(EncodeField(f) + rest) == Some((f, rest))
  {
    hide DecodeDigits, EncodeVarint, DecodeVarint;
    match f
    case VarField(tag, v) =>
      Prefixed(tag * 8, EncodeVarint(v), rest);
      VarintRoundTrip(v, rest);
    case LenField(tag, data) =>
      Prefixed(tag * 8 + 2, EncodeVarint(|data|) + data, rest);
      Prefixed(|data|, data, rest);
      assert (data + rest)[..|data|] == data && (data + rest)[|data|..] == rest;
  }

  lemma Prefixed(n: nat, b: Bytes, rest: Bytes)
    requires n < U64
    ensures DecodeVarint(EncodeVarint(n) + b + rest) == Some((n, b + rest))
  {
    hide EncodeVarint, DecodeVarint;
    VarintRoundTrip(n, b + rest);
    assert EncodeVarint(n) + b + rest == EncodeVarint(n) + (b + rest);
  }

  /** Any list of fields survives the wire. */
  lemma {:induction false} FieldsRoundTrip(fs: seq<Field>)
    requires forall f :: f in fs ==> FieldOk(f)
    ensures DecodeFields(EncodeFields(fs)) == Some(fs)
  {
    if fs != [] {
      FieldRoundTrip(fs[0], EncodeFields(fs[1..]));
      FieldsRoundTrip(fs[1..]);
      assert fs == [fs[0]] + fs[1..];
    }
  }

  // ------------------------------------------------------------ Checksum

  datatype Checksum = Checksum(algo: nat, sum: nat)

  const CRC32C: nat := 0

  /** proto3 leaves default values out. */
  function Scalar(tag: nat, v: nat): seq<Field> { if v == 0 then [] else [VarField(tag, v)] }

  function EncodeChecksum(c: Checksum): Bytes { EncodeFields(Scalar(1, c.algo) + Scalar(2, c.sum)) }

  function FoldChecksum(fs: seq<Field>, acc: Checksum): Option<Checksum> {
    if fs == [] then Some(acc) else
    match fs[0]
    case VarField(1, v) => FoldChecksum(fs[1..], acc.(algo := v % U32))
    case VarField(2, v) => FoldChecksum(fs[1..], acc.(sum := v))
    case f => if f.tag == 1 || f.tag == 2 then None else FoldChecksum(fs[1..], acc)
  }

  function DecodeChecksum(b: Bytes): Option<Checksum> {
    match DecodeFields(b)
    case None => None
    case Some(fs) => FoldChecksum(fs, Checksum(0, 0))
  }

  lemma ChecksumRoundTrip(c: Checksum)
    requires c.algo == CRC32C && c.sum < U32
    ensures DecodeChecksum(EncodeChecksum(c)) == Some(c)
    ensures |EncodeChecksum(c)| <= 6
  {
    FieldsRoundTrip(Scalar(2, c.sum));
    assert Scalar(1, 0) + Scalar(2, c.sum) == Scalar(2, c.sum);
    if c.sum != 0 {
      VarintBytes(c.sum);
      assert EncodeFields(Scalar(2, c.sum)) == EncodeField(VarField(2, c.sum)) + [];
      assert |EncodeVarint(16)| == 1;
      assert FoldChecksum([VarField(2, c.sum)][1..], c) == Some(c);
    }
  }

  // ------------------------------------------------------------ TableIndex

  datatype BlockOffset = BlockOffset(key: Bytes, offset: nat, len: nat)

  datatype TableIndex = TableIndex(offsets: seq<BlockOffset>, bloom: Bytes, estimatedSize: nat, maxVersion: nat, keyCount: nat)

  const EMPTY_INDEX := TableIndex([], [], 0, 0, 0)

  function Blob(tag: nat, data: Bytes): seq<Field> { if data == [] then [] else [LenField(tag, data)] }

  function EncodeBlockOffset(b: BlockOffset): Bytes {
    EncodeFields(Blob(1, b.key) + Scalar(2, b.offset) + Scalar(3, b.len))
  }

  function FoldBlockOffset(fs: seq<Field>, acc: BlockOffset): Option<BlockOffset> {
    if fs == [] then Some(acc) else
    match fs[0]
    case LenField(1, data) => FoldBlockOffset(fs[1..], acc.(key := data))
    case VarField(2, v) => FoldBlockOffset(fs[1..], acc.(offset := v % U32))
    case VarField(3, v) => FoldBlockOffset(fs[1..], acc.(len := v % U32))
    case f => if 1 <= f.tag <= 3 then None else FoldBlockOffset(fs[1..], acc)
  }

  function DecodeBlockOffset(b: Bytes): Option<BlockOffset> {
    match DecodeFields(b)
    case None => None
    case Some(fs) => FoldBlockOffset(fs, BlockOffset([], 0, 0))
  }

  predicate BlockOffsetOk(b: BlockOffset) { |b.key| < U32 && b.offset < U32 && b.len < U32 }

  lemma BlockOffsetRoundTrip(b: BlockOffset)
    requires BlockOffsetOk(b)
    ensures DecodeBlockOffset(EncodeBlockOffset(b)) == Some(b)
  {
    hide DecodeFields, EncodeFields;
    var k, o, l := Blob(1, b.key), Scalar(2, b.offset), Scalar(3, b.len);
    FieldsRoundTrip(k + o + l);
    var b0 := BlockOffset([], 0, 0);
    assert FoldBlockOffset(k + o + l, b0) == FoldBlockOffset(o + l, b0.(key := b.key)) by {
      if b.key != [] { assert (k + o + l)[1..] == o + l; } else { assert k + o + l == o + l; }
    }
    assert FoldBlockOffset(l, BlockOffset(b.key, b.offset, 0)) == Some(b) by {
      if b.len != 0 { assert l[1..] == [] && FoldBlockOffset([], b) == Some(b); }
    }
    assert FoldBlockOffset(o + l, b0.(key := b.key)) == FoldBlockOffset(l, BlockOffset(b.key, b.offset, 0)) by {
      if b.offset != 0 { assert (o + l)[1..] == l; } else { assert o + l == l; }
    }
  }

  function OffsetFields(bs: seq<BlockOffset>): seq<Field> { seq(|bs|, i requires 0 <= i < |bs| => LenField(1, EncodeBlockOffset(bs[i]))) }

  function IndexTail(t: TableIndex): seq<Field> {
    Blob(2, t.bloom) + (Scalar(3, t.estimatedSize) + (Scalar(4, t.maxVersion) + Scalar(5, t.keyCount)))
  }

  function EncodeIndex(t: TableIndex): Bytes { EncodeFields(OffsetFields(t.offsets) + IndexTail(t)) }

  function FoldIndex(fs: seq<Field>, acc: TableIndex): Option<TableIndex> {
    if fs == [] then Some(acc) else
    match fs[0]
    case LenField(1, data) =>
      (match DecodeBlockOffset(data)
       case None => None
       case Some(b) => FoldIndex(fs[1..], acc.(offsets := acc.offsets + [b])))
    case LenField(2, data) => FoldIndex(fs[1..], acc.(bloom := data))
    case VarField(3, v) => FoldIndex(fs[1..], acc.(estimatedSize := v % U32))
    case VarField(4, v) => FoldIndex(fs[1..], acc.(maxVersion := v))
    case VarField(5, v) => FoldIndex(fs[1..], acc.(keyCount := v % U32))
    case f => if 1 <= f.tag <= 5 then None else FoldIndex(fs[1..], acc)
  }

  function DecodeIndex(b: Bytes): Option<TableIndex> {
    match DecodeFields(b)
    case None => None
    case Some(fs) => FoldIndex(fs, EMPTY_INDEX)
  }

  predicate IndexOk(t: TableIndex) {
    && (forall b :: b in t.offsets ==> BlockOffsetOk(b))
    && |t.bloom| < U32 && t.estimatedSize < U32 && t.maxVersion < U64 && t.keyCount < U32
  }

  lemma {:induction false} FoldOffsets(bs: seq<BlockOffset>, tail: seq<Field>, acc: TableIndex)
    requires forall b :: b in bs ==> BlockOffsetOk(b)
    ensures FoldIndex(OffsetFields(bs) + tail, acc) == FoldIndex(tail, acc.(offsets := acc.offsets + bs))
  {
    hide DecodeBlockOffset, EncodeBlockOffset;
    if bs == [] {
      assert OffsetFields(bs) + tail == tail && acc.offsets + bs == acc.offsets;
    } else {
      BlockOffsetRoundTrip(bs[0]);
      assert (OffsetFields(bs) + tail)[1..] == OffsetFields(bs[1..]) + tail;
      FoldOffsets(bs[1..], tail, acc.(offsets := acc.offsets + [bs[0]]));
      assert acc.offsets + [bs[0]] + bs[1..] == acc.offsets + bs;
    }
  }

  lemma FoldTail(t: TableIndex, acc: TableIndex)
    requires IndexOk(t) && acc == TableIndex(t.offsets, [], 0, 0, 0)
    ensures FoldIndex(IndexTail(t), acc) == Some(t)
  {
    hide FoldIndex, Scalar, Blob;
    var e, m, k := Scalar(3, t.estimatedSize), Scalar(4, t.maxVersion), Scalar(5, t.keyCount);
    var a1 := acc.(bloom := t.bloom);
    var a2 := a1.(estimatedSize := t.estimatedSize);
    var a3 := a2.(maxVersion := t.maxVersion);
    FoldBlob(t.bloom, e + (m + k), acc);
    FoldScalar(3, t.estimatedSize, m + k, a1);
    FoldScalar(4, t.maxVersion, k, a2);
    FoldScalar(5, t.keyCount, [], a3);
    FoldEnd(t);
    assert k + [] == k;
  }

  lemma FoldEnd(acc: TableIndex)
    ensures FoldIndex([], acc) == Some(acc)
  {}

  lemma FoldBlob(data: Bytes, rest: seq<Field>, acc: TableIndex)
    requires acc.bloom == []
    ensures FoldIndex(Blob(2, data) + rest, acc) == FoldIndex(rest, acc.(bloom := data))
  {
    var fs := Blob(2, data) + rest;
    assert fs[|Blob(2, data)|..] == rest;
  }

  lemma FoldScalar(tag: nat, v: nat, rest: seq<Field>, acc: TableIndex)
    requires 3 <= tag <= 5 && acc.estimatedSize < U32 && (tag != 4 ==> v < U32)
    requires v == 0 ==> (if tag == 3 then acc.estimatedSize else if tag == 4 then acc.maxVersion else acc.keyCount) == 0
    ensures FoldIndex(Scalar(tag, v) + rest, acc)
         == FoldIndex(rest, if tag == 3 then acc.(estimatedSize := v) else if tag == 4 then acc.(maxVersion := v) else acc.(keyCount := v))
  {
    var fs := Scalar(tag, v) + rest;
    assert fs[|Scalar(tag, v)|..] == rest;
  }

  /** A table index survives encoding, whatever its blocks, filter and sizes. */
  lemma IndexRoundTrip(t: TableIndex)
    requires IndexOk(t) && |EncodeIndex(t)| < U32
    ensures DecodeIndex(EncodeIndex(t)) == Some(t)
  {
    hide DecodeBlockOffset, EncodeBlockOffset, FoldIndex, IndexTail;
    FieldSizes(OffsetFields(t.offsets) + IndexTail(t));
    IndexFieldsOk(t);
    FieldsRoundTrip(OffsetFields(t.offsets) + IndexTail(t));
    FoldOffsets(t.offsets, IndexTail(t), EMPTY_INDEX);
    assert EMPTY_INDEX.offsets + t.offsets == t.offsets;
    FoldTail(t, TableIndex(t.offsets, [], 0, 0, 0));
  }

  lemma {:induction false} FieldSizes(fs: seq<Field>)
    ensures forall f :: f in fs && f.LenField? ==> |f.data| <= |EncodeFields(fs)|
  {
    if fs != [] { FieldSizes(fs[1..]); }
  }

  lemma IndexFieldsOk(t: TableIndex)
    requires IndexOk(t)
    requires forall f :: f in OffsetFields(t.offsets) + IndexTail(t) && f.LenField? ==> |f.data| < U32
    ensures forall f :: f in OffsetFields(t.offsets) + IndexTail(t) ==> FieldOk(f)
  {}

  // ------------------------------------------------------------ the bytes on the wire

  /** A field of this kind, left out when it has its default value. */
  function ScalarBytes(key: byte, v: nat): Bytes { if v == 0 then [] else [key] + EncodeVarint(v) }

  function BlobBytes(key: byte, data: Bytes): Bytes { if data == [] then [] else [key] + (EncodeVarint(|data|) + data) }

  lemma ScalarIs(tag: nat, v: nat)
    requires 0 < tag < 16
    ensures EncodeFields(Scalar(tag, v)) == ScalarBytes(tag * 8, v)
  {
    if v != 0 { assert Scalar(tag, v)[1..] == [] && EncodeVarint(tag * 8) == [tag * 8]; }
  }

  lemma BlobIs(tag: nat, data: Bytes)
    requires 0 < tag < 15
    ensures EncodeFields(Blob(tag, data)) == BlobBytes(tag * 8 + 2, data)
  {
    if data != [] { assert Blob(tag, data)[1..] == [] && EncodeVarint(tag * 8 + 2) == [tag * 8 + 2]; }
  }

  lemma {:induction false} FieldsJoin(a: seq<Field>, b: seq<Field>)
    ensures EncodeFields(a + b) == EncodeFields(a) + EncodeFields(b)
  {
    hide EncodeField;
    if a == [] {
      assert a + b == b;
    } else {
      assert (a + b)[1..] == a[1..] + b;
      FieldsJoin(a[1..], b);
      assert EncodeField(a[0]) + (EncodeFields(a[1..]) + EncodeFields(b))
          == EncodeField(a[0]) + EncodeFields(a[1..]) + EncodeFields(b);
    }
  }

  /** Checksum: algo is field 1 and sum field 2, both varints. */
  lemma ChecksumBytes(c: Checksum)
    ensures EncodeChecksum(c) == ScalarBytes(0x08, c.algo) + ScalarBytes(0x10, c.sum)
  {
    hide EncodeFields, Scalar, ScalarBytes;
    FieldsJoin(Scalar(1, c.algo), Scalar(2, c.sum));
    ScalarIs(1, c.algo);
    ScalarIs(2, c.sum);
  }

  /** BlockOffset: key is field 1, offset field 2, len field 3. */
  lemma BlockOffsetBytes(b: BlockOffset)
    ensures EncodeBlockOffset(b) == BlobBytes(0x0A, b.key) + ScalarBytes(0x10, b.offset) + ScalarBytes(0x18, b.len)
  {
    hide EncodeFields, Scalar, Blob, ScalarBytes, BlobBytes;
    FieldsJoin(Blob(1, b.key) + Scalar(2, b.offset), Scalar(3, b.len));
    FieldsJoin(Blob(1, b.key), Scalar(2, b.offset));
    BlobIs(1, b.key);
    ScalarIs(2, b.offset);
    ScalarIs(3, b.len);
  }

  /** The offsets, each a field 1 of its own, present even when empty. */
  function OffsetsBytes(bs: seq<BlockOffset>): Bytes {
    if bs == [] then []
    else [0x0A] + (EncodeVarint(|EncodeBlockOffset(bs[0])|) + EncodeBlockOffset(bs[0])) + OffsetsBytes(bs[1..])
  }

  lemma {:induction false} OffsetsAre(bs: seq<BlockOffset>)
    ensures EncodeFields(OffsetFields(bs)) == OffsetsBytes(bs)
  {
    hide EncodeBlockOffset;
    if bs != [] {
      OffsetsAre(bs[1..]);
      var fs := OffsetFields(bs);
      assert fs[1..] == OffsetFields(bs[1..]);
      assert EncodeVarint(0x0A) == [0x0A];
    }
  }

  /** TableIndex: offsets are field 1, then bloom_filter, estimated_size, max_version and key_count, 2 to 5. */
  lemma IndexBytes(t: TableIndex)
    ensures EncodeIndex(t) == OffsetsBytes(t.offsets) + (BlobBytes(0x12, t.bloom) + (ScalarBytes(0x18, t.estimatedSize)
                                + (ScalarBytes(0x20, t.maxVersion) + ScalarBytes(0x28, t.keyCount))))
  {
    hide EncodeFields, Scalar, Blob, OffsetFields, ScalarBytes, BlobBytes, OffsetsBytes;
    var s, m, k := Scalar(3, t.estimatedSize), Scalar(4, t.maxVersion), Scalar(5, t.keyCount);
    FieldsJoin(OffsetFields(t.offsets), IndexTail(t));
    FieldsJoin(Blob(2, t.bloom), s + (m + k));
    FieldsJoin(s, m + k);
    FieldsJoin(m, k);
    OffsetsAre(t.offsets);
    BlobIs(2, t.bloom);
    ScalarIs(3, t.estimatedSize);
    ScalarIs(4, t.maxVersion);
    ScalarIs(5, t.keyCount);
  }
}
