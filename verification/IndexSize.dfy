/** How many bytes the index of a table takes, so that the length assertion of `finish` can be discharged. */
module IndexSizes {
  import opened Bytes
  import opened Proto
  import opened SstFormat
  import opened SstTable
  import opened Cursors

  lemma OneField(f: Field)
    ensures EncodeFields([f]) == EncodeField(f)
  {
    assert [f][1..] == [] && EncodeFields([]) == [];
  }

  lemma ScalarSize(tag: nat, v: nat)
    requires tag < 16 && v < U64
    ensures |EncodeFields(Scalar(tag, v))| <= if v < U32 then 6 else 11
  {
    VarintBytes(v);
    if v != 0 { OneField(VarField(tag, v)); }
  }

  lemma BlobSize(tag: nat, data: Bytes)
    requires tag < 15 && |data| < U32
    ensures |EncodeFields(Blob(tag, data))| <= |data| + 6
  {
    VarintBytes(|data|);
    if data != [] { OneField(LenField(tag, data)); }
  }

  lemma BlockOffsetSize(b: BlockOffset)
    requires BlockOffsetOk(b)
    ensures |EncodeBlockOffset(b)| <= |b.key| + 18
  {
    hide EncodeFields, Blob, Scalar;
    FieldsJoin(Blob(1, b.key) + Scalar(2, b.offset), Scalar(3, b.len));
    FieldsJoin(Blob(1, b.key), Scalar(2, b.offset));
    BlobSize(1, b.key);
    ScalarSize(2, b.offset);
    ScalarSize(3, b.len);
  }

  function KeyBytes(bs: seq<BlockOffset>): nat {
    if bs == [] then 0 else KeyBytes(bs[..|bs| - 1]) + |bs[|bs| - 1].key| + 24
  }

  lemma {:induction false} OffsetsSize(bs: seq<BlockOffset>)
    requires forall b :: b in bs ==> BlockOffsetOk(b) && |b.key| <= MAX_KEY
    ensures |EncodeFields(OffsetFields(bs))| <= KeyBytes(bs)
    decreases |bs|
  {
    hide EncodeFields, EncodeBlockOffset;
    if bs == [] {
      assert OffsetFields(bs) == [] && EncodeFields([]) == [] by { NoFields(); }
    } else {
      var n := |bs| - 1;
      var last := LenField(1, EncodeBlockOffset(bs[n]));
      assert OffsetFields(bs) == OffsetFields(bs[..n]) + [last];
      OffsetsSize(bs[..n]);
      FieldsJoin(OffsetFields(bs[..n]), [last]);
      BlockOffsetSize(bs[n]);
      BlobSize(1, EncodeBlockOffset(bs[n]));
      LastField(EncodeBlockOffset(bs[n]));
    }
  }

  lemma NoFields()
    ensures EncodeFields([]) == []
  {}

  lemma LastField(data: Bytes)
    requires |data| < U32
    ensures |EncodeFields([LenField(1, data)])| <= |data| + 6
  {
    VarintBytes(|data|);
    OneField(LenField(1, data));
  }

  lemma IndexSize(t: TableIndex)
    requires |t.bloom| < U32 && t.estimatedSize < U32 && t.maxVersion < U64 && t.keyCount < U32
    requires forall b :: b in t.offsets ==> BlockOffsetOk(b) && |b.key| <= MAX_KEY
    ensures |EncodeIndex(t)| <= KeyBytes(t.offsets) + |t.bloom| + 29
  {
    hide EncodeFields, Blob, Scalar, OffsetFields;
    var s, m, k := Scalar(3, t.estimatedSize), Scalar(4, t.maxVersion), Scalar(5, t.keyCount);
    FieldsJoin(OffsetFields(t.offsets), IndexTail(t));
    FieldsJoin(Blob(2, t.bloom), s + (m + k));
    FieldsJoin(s, m + k);
    FieldsJoin(m, k);
    OffsetsSize(t.offsets);
    BlobSize(2, t.bloom);
    ScalarSize(3, t.estimatedSize);
    ScalarSize(4, t.maxVersion);
    ScalarSize(5, t.keyCount);
  }

  /** The same allowance for every entry, not just the first of each block. */
  function Weight(items: seq<Item>): nat {
    if items == [] then 0 else Weight(items[..|items| - 1]) + |items[|items| - 1].key| + 24
  }

  lemma {:induction false} WeightJoin(a: seq<Item>, b: seq<Item>)
    ensures Weight(a + b) == Weight(a) + Weight(b)
    decreases |b|
  {
    if b == [] {
      assert a + b == a;
    } else {
      assert (a + b)[..|a + b| - 1] == a + b[..|b| - 1];
      WeightJoin(a, b[..|b| - 1]);
    }
  }

  lemma WeightOfFirst(items: seq<Item>)
    requires items != []
    ensures Weight(items) >= |items[0].key| + 24
  {
    assert items == [items[0]] + items[1..];
    WeightJoin([items[0]], items[1..]);
    assert [items[0]][..0] == [];
  }

  lemma {:induction false} IndexWeighsLess(sum: Summer, blocks: seq<seq<Item>>)
    requires BlocksOk(blocks)
    ensures KeyBytes(IndexEntries(sum, blocks)) <= Weight(Flatten(blocks))
    ensures forall b :: b in IndexEntries(sum, blocks) ==> |b.key| <= MAX_KEY
    decreases |blocks|
  {
    hide BlockBytes, BlocksBytes, Weight;
    if blocks != [] {
      var n := |blocks| - 1;
      IndexWeighsLess(sum, blocks[..n]);
      WeightJoin(Flatten(blocks[..n]), blocks[n]);
      WeightOfFirst(blocks[n]);
      assert blocks[n][0] in blocks[n] && ItemOk(blocks[n][0]);
      assert IndexEntries(sum, blocks)[..n] == IndexEntries(sum, blocks[..n]);
    }
  }

  /** The encoded index of a built table, from what was added to it. */
  lemma BuiltIndexSize(sum: Summer, blocks: seq<seq<Item>>, t: TableIndex)
    requires BlocksOk(blocks) && |BlocksBytes(sum, blocks)| < U32 && t.offsets == IndexEntries(sum, blocks)
    requires |t.bloom| < U32 && t.estimatedSize < U32 && t.maxVersion < U64 && t.keyCount < U32
    ensures |EncodeIndex(t)| <= Weight(Flatten(blocks)) + |t.bloom| + 29
  {
    hide BlocksBytes, EncodeIndex, Weight, Flatten, IndexEntries, BlockOk;
    IndexEntriesOk(sum, blocks);
    IndexWeighsLess(sum, blocks);
    IndexSize(t);
  }
}
