# AgateDB storage core: a verified model

AgateDB is the storage core of an LSM key-value store. This project models its five components that
hold real invariants and proves what they promise.

* **Lock-free skiplist** (`Skiplist*.dfy`, `Mvcc.dfy`). `put` and `find_near` are a step machine: each step
  makes at most one access to shared memory, any number of threads interleave freely, the tower height is an
  arbitrary value in 0..19 and the weak compare-and-swap may fail at will. The invariant is inductive over
  every step; the run theorems are stated on the pointers alone (`IsChain`: what following the level-i words
  visits). With timestamped keys (`Keys.dfy`) this gives multi-version snapshot reads.
* **Table files** (`Bytes`, `Proto`, `SstFormat`, `SstTable`, `Builder`, `BlockIterator`, `TableIterator`,
  `IndexSize`, `Tables`). The prefix-compressed block format byte by byte, the builder as a class that grows its
  buffer in place, the reader's footer walk, the block cursor that patches its key buffer, the two-level search.
* **Iterators** (`Cursors`, `ConcatIterator`, `MergeSpec`, `MergeIterator`, `Scans`). One contract, a cursor over a
  strictly sorted sequence listed in its direction of travel, kept by table, concat and merge iterators.
* **Write-ahead log** (`Wal.dfy`, varints in `Bytes.dfy`). Framing, writing into the mapped file, and replay
  after a truncation anywhere.
* **Compaction admission and Bloom filter** (`KeyRanges`, `Compaction`, `CompactionRuns`, `Bloom`).

What the members take as given, because the code demands it of its callers: keys have 8 to 65535 bytes and
reach the builder in strictly increasing order; `finish` is called once; tables given to a concat iterator are
sorted, disjoint and not empty. Sizes are not taken as given: a table that outgrows 32 bits makes the builder
panic, and `Tables.Room` says when it certainly does not.

Four promises do not hold of the code on all inputs; for each there is the exact condition and an input that
fails:

* `Value::decode` inverts `encode` if and only if the value has neither expiry nor version
  (`Values.DecodeInverts`; `Values.ExpiryOfOne` is an input on which it panics); the loop test at src/value.rs:68 never holds and the
  threshold at src/value.rs:83 is `0x128`, not 128.
* A Bloom filter reports every hash put into it, and a table denies none of its user keys, if and only if the
  filter has fewer than 2^32 bits (`Bloom.ReportsWhen`, `Tables.LosesNothingWhen`; for every number of keys, of
  bits per key and of probes). The reader casts the bit count to 32 bits (src/bloom.rs:96) and the builder does
  not (src/bloom.rs:78). Above, a key whose hash is 2^32 - 1 is denied, or the reader divides by zero when the
  count is a multiple of 2^32; 2^22 versions of such a key at 1025 or 1024 bits per key show both
  (`Bloom.FalseNegative`).
* `CompactStatus::delete` undoes an admitted `compare_and_add` if and only if the definition is `Undoable`
  (`Compaction.DeleteUndoesAdd`): with an Empty next range it leaves that Empty behind, which closes the level
  (`Compaction.EmptyBlocks`, `Compaction.EmptyIsLeftBehind`); with one level and two equal ranges it panics.
* A log replays to exactly its entries if and only if no key is empty or longer than 2^16 bytes
  (`Wal.ReplayIsExactlyPlain`): an empty key reads as the end of the log and hides
  what follows (`Wal.EmptyKeyHidesTheRest`).

Where code and comments differ the code is followed: the doc comment of `Header::encode` (src/wal.rs:43-49)
shows fixed-width `expires_at`, the code writes varints; `prev_inner` after a `next` that ran off the end
reports a block-index error instead of going back (`TableIterators.TableIterator.PrevInner`). Sums that overflow
(`del_size`, the index's `estimated_size`) are a panic, as in a build with overflow checks.

## Model

| member | source | states |
|---|---|---|
| Bytes.VarintRoundTrip | src/wal.rs:50-72 | every 64-bit number survives its base-128 varint with the rest of the stream intact, and every proper prefix of the encoding fails to decode |
| Bytes.VarintFormat | src/wal.rs:50-60 | the bytes of a varint: seven-bit groups, least significant first, marked but for the last, no zero group appended |
| Bytes.DecodeVarintIs | src/wal.rs:62-72 | what the varint reader accepts on any bytes: one to ten bytes up to the first unmarked one, their number kept in 64 bits |
| Bytes.LE32Bytes | src/table/builder.rs:24-28 | the little-endian word in numbers, byte by byte; writing undoes reading |
| Bytes.BE32Bytes | src/table/builder.rs:200-207 | the big-endian word in numbers, byte by byte; writing undoes reading |
| Bytes.LexIsFirstDifference | skiplist/src/key.rs:38-43 | byte slices compare by their first difference, a proper prefix being smaller |
| Keys.CompareIsTotalOrder | skiplist/src/key.rs:22-45 | `compare_key` is a strict total order: antisymmetric, transitive, and Equal only for identical bytes |
| Keys.CompareIsLexicographic | skiplist/src/key.rs:22-45 | `compare_key` in full: user keys by their first differing byte, a proper prefix first, then the greater timestamp first |
| Keys.KeyLayout | src/format.rs:20-32 | a timestamped key is the user key and eight bytes, the complement of the timestamp, most significant first |
| Keys.KeyParts | src/format.rs:4-45 | taking user key and timestamp from a key built with `key_with_ts` gives them back |
| Keys.KeyFromParts | src/format.rs:34-45 | every key of at least 8 bytes is `key_with_ts` of its own parts |
| Keys.VersionOrder | src/format.rs:20-32 | keys order by user key ascending, then by timestamp descending |
| SkiplistInvariant.SwapKeeps | skiplist/src/list.rs:213-218 | a successful level-i compare-and-swap keeps every level's successor relation, sortedness and key uniqueness, also with other nodes half linked |
| SkiplistInvariant.AllocKeeps | skiplist/src/list.rs:24-39 | a bump allocation yields an unlinked node in fresh memory and disturbs no other thread's splices |
| SkiplistInvariant.RegionsAlloc | skiplist/src/arena.rs:44-54 | the allocated node is aligned, in bounds and disjoint from all earlier ones |
| SkiplistInvariant.SearchKeeps | skiplist/src/list.rs:174-186 | each saved `prev[i]` is linked at level i with a smaller key, each `next[i]` null or linked with a greater one |
| SkiplistInvariant.SpliceKeeps | skiplist/src/list.rs:202-240 | re-splicing after a lost race restores that, and meets an equal key only at level 0 |
| SkiplistInvariant.SwapStepKeeps | skiplist/src/list.rs:202-240 | linking at level i changes what is linked only there and only for the thread's own node |
| SkiplistInvariant.RaiseKeeps | skiplist/src/list.rs:190-200 | the published height only grows and covers every linked level |
| SkiplistInvariant.ReadStepKeeps | skiplist/src/list.rs:89-144 | every load of `find_near` follows a linked pointer to a node below the key |
| SkiplistInvariant.NextKeeps | skiplist/src/list.rs:167-242 | the whole invariant (list, arena, every thread) is kept by every step of every thread; nodes are never unlinked |
| SkiplistTheorems.LevelChain | skiplist/src/list.rs:146-165 | following level i from the head visits finitely many nodes, exactly the linked ones, in strictly increasing key order |
| SkiplistTheorems.ChainUnique | skiplist/src/list.rs:41-43 | the pointers determine the chain, so levels can be stated without ghost state |
| SkiplistTheorems.ScanIsNearest | skiplist/src/list.rs:89-144 | in all four modes a linear scan of level 0 finds the nearest acceptable node, and nothing else is nearest |
| SkiplistTheorems.NearStep | skiplist/src/list.rs:89-144 | the step at which `find_near` returns gives the nearest published node of that very state |
| SkiplistTheorems.StepAtomic | skiplist/src/list.rs:167-242 | each step leaves level 0 alone or inserts the stepping put's own pair under an absent key; a returning operation answers for the level 0 of that moment |
| SkiplistRuns.RunInv | skiplist/src/list.rs:167-242 | every state of every run of any number of threads satisfies the invariant |
| SkiplistRuns.RunsLinearize | skiplist/src/list.rs:167-242 | linearizability: every run has a level-0 history of atomic insert-if-absent steps; a put returns its pair exactly when the stored value differs, a find what a linear scan returns |
| SkiplistRuns.StoredForever | skiplist/src/list.rs:167-242 | a stored pair is never moved, changed or removed later in the run |
| SkiplistRuns.ScanFinds | skiplist/src/list.rs:291-300 | looking up a stored key finds its one node |
| SkiplistRuns.ReadsSeeFinishedPuts | skiplist/src/list.rs:283-300 | after a put has returned, every later-returning lookup of its key finds it, with the value that decided the put's answer |
| SkiplistRuns.ReachableLevels | skiplist/src/list.rs:146-165 | in every reachable state each level is a sorted acyclic chain of nodes tall enough for it, contained in the level below, empty above the published height |
| SkiplistRuns.TowersComplete | skiplist/src/list.rs:202-240 | in every reachable state a node of level 0 is on every level of its tower, or its put is still linking it |
| SkiplistRuns.PutLinksAllLevels | skiplist/src/list.rs:202-240 | at the step where a put that published its node returns, the node is on every level of its tower |
| SkiplistRuns.RestingLevels | skiplist/src/list.rs:202-240 | with no operation under way level i holds exactly the level-0 nodes with more than i tower slots |
| SkiplistRuns.HeightIsReached | skiplist/src/list.rs:190-200 | the published height is 0 or that of some tower |
| SkiplistRuns.AllocationStep | skiplist/src/list.rs:24-39 | with height h drawn, a node takes 76 + 4h bytes and 7 for alignment, has h + 1 empty slots and the put's pair; the put stops exactly when that does not fit |
| SkiplistRuns.NoFaults | skiplist/src/list.rs:202-240 | the assertions `i > 1`, `p != n` and `i == 0` never fire and no pointer leaves the arena; only a full arena stops a thread, and only a put |
| SkiplistRuns.ReachableRegions | skiplist/src/arena.rs:44-54 | in every reachable state nodes are non-zero, aligned, in bounds and pairwise disjoint, with every tower slot inside the node's own region |
| SkiplistReads.ReachableSound | skiplist/src/list.rs:89-144 | every reachable list, half-linked nodes included, meets what the readers below ask for |
| SkiplistReads.FindNear | skiplist/src/list.rs:89-144 | the skip search terminates and returns what a linear scan of level 0 returns, in all four modes |
| SkiplistReads.FindLast | skiplist/src/list.rs:264-281 | the last node of level 0, null when there is none |
| SkiplistReads.Len | skiplist/src/list.rs:250-262 | the number of nodes on level 0 |
| SkiplistReads.PrevUndoesNext | skiplist/src/list.rs:375-388 | on a list at rest `prev` leads back from where `next` leads |
| Mvcc.SnapshotRead | skiplist/src/list.rs:291-300 | the node a lookup of (key, ts) lands on is a version of the key exactly when one at or below ts exists, and then the newest such |
| Mvcc.SnapshotReadInRun | skiplist/src/list.rs:291-300 | in every run, at the step where a `get` returns, its node is the newest version level 0 then holds at or below ts, or none is visible, whatever puts overlap it |
| Mvcc.Get | skiplist/src/list.rs:291-300 | on a list at rest `get` returns that entry, None exactly when no version is visible |
| Values.EncodedSizeCovers | src/value.rs:81-135 | `encoded_size` never understates the bytes `encode` writes |
| Values.VarSizeIs | src/value.rs:36-60 | `var_size` is the length of the base-128 varint |
| Values.EncodedSizeIs | src/value.rs:112-118 | `encoded_size` in numbers |
| Values.ValueLayout | src/value.rs:128-135 | flag bytes first, the data last, one zero byte between them without an expiry |
| Values.ExpiryBytes | src/value.rs:81-93 | which bytes an expiry becomes: unmarked seven-bit groups down to the first rest below 0x128 |
| Values.DecodeInverts | src/value.rs:62-135 | `decode` gives the value back if and only if it has no expiry and no version |
| Values.ExpiryIsLost | src/value.rs:62-93 | which expiries decode at all, and that they decode to zero |
| Values.ExpiryOfOne | src/value.rs:62-93 | a value expiring at 1 encodes to bytes that decoding panics on |
| Proto.FieldsRoundTrip | proto/src/proto/meta.proto:49-70 | any list of varint and length-delimited fields survives the wire |
| Proto.ChecksumRoundTrip | proto/src/proto/meta.proto:63-70 | a checksum message survives, and with a 32-bit CRC takes at most 6 bytes |
| Proto.BlockOffsetRoundTrip | proto/src/proto/meta.proto:49-53 | an index entry survives |
| Proto.IndexRoundTrip | proto/src/proto/meta.proto:55-61 | a whole table index survives, whatever its blocks, filter and sizes |
| Proto.ChecksumBytes | proto/src/proto/meta.proto:63-70 | the bytes of a checksum message, field by field, defaults left out |
| Proto.BlockOffsetBytes | proto/src/proto/meta.proto:49-53 | the bytes of an index entry |
| Proto.IndexBytes | proto/src/proto/meta.proto:55-61 | the bytes of a table index |
| SstFormat.HeaderRoundTrip | src/table/builder.rs:16-33 | overlap and difference lengths up to 65535 survive the 4-byte entry header |
| SstFormat.HeaderLayout | src/table/builder.rs:23-28 | the four header bytes: the difference's length, then the overlap, least significant byte first |
| SstFormat.EntryLayout | src/table/builder.rs:72-98 | an entry is its header, the key after what it shares with the block's first key, and the value |
| SstFormat.EntryAt | src/table/builder.rs:72-98 | entry i of a block's data is what its recorded offset cuts out, wherever the block ends |
| SstFormat.DataPrefix | src/table/builder.rs:72-98 | adding entries never changes the bytes of earlier ones |
| SstFormat.BlockRoundTrip | src/table.rs:278-334 | parsing a finished block gives back its data, offsets and checksum |
| SstFormat.ParseBlockIs | src/table.rs:292-328 | on any bytes the reader succeeds exactly on the layout entries, offsets, count, checksum, length, and takes it apart so |
| SstFormat.ChecksumTooLong | src/table.rs:298-300 | the checksum-length error is reported exactly when the stored length exceeds the block |
| SstTable.FooterRoundTrip | src/table.rs:209-242 | reading backwards from the end of a file recovers the index that `finish` appended, whatever precedes it |
| SstTable.ReadFooterIs | src/table.rs:209-242 | on any bytes the footer is read exactly when an index, its length, a checksum message and its length end the file, the index decodes, is not empty and has the stored sum |
| SstTable.DamagedIndex | src/table.rs:226 | an index with another sum is refused as a checksum mismatch |
| SstTable.BlockPlace | src/table/builder.rs:115-122 | index entry i gives the place of block i among the concatenated blocks |
| SstTable.TableHolds | src/table.rs:278-334 | every block of a written table is read back through the index, in every checksum mode |
| SstTable.VerifyOwnBlock | src/table.rs:503-506 | a block's stored checksum verifies against its own bytes |
| SstTable.ReadBlockIs | src/table.rs:278-334 | on any table a block is read exactly when its index entry lies in the file, the bytes have the layout, and, in the modes that check on reading, the stored sum is that of the bytes |
| SstTable.DamagedBlock | src/table.rs:329-331 | in those modes a block with another sum is refused as a checksum mismatch |
| Util.Search | src/util.rs:52-67 | binary search of a monotone predicate returns the first index where it holds, n if none |
| Util.BytesDiff | src/util.rs:26-50 | the word-at-a-time comparison cuts off exactly the longest common prefix |
| Util.PrefixIs | src/util.rs:26-50 | a shared prefix followed by a difference or an end is the longest common prefix |
| BlockIterators.BlockIterator.SetIdx | src/table/iterator.rs:99-141 | after any earlier moves, the rebuilt key and value are those added at the index; past the end EOF with the buffer kept |
| BlockIterators.BlockIterator.Seek | src/table/iterator.rs:155-175 | the search whose predicate moves the cursor lands on the first entry not below the key, from the origin or the current entry |
| BlockIterators.BlockIterator.Prev | src/table/iterator.rs:195-203 | one entry back, or EOF with the index wrapped to the maximum at the front |
| BlockIterators.RebuildOk | src/table/iterator.rs:124-140 | patching the old key up to the new overlap and appending the difference gives the full new key, because old key and base key agree up to the old overlap |
| BlockIterators.EntryFacts | src/table/iterator.rs:111-127 | the header and payload cut out by the offsets describe the added key relative to the block's first key |
| TableIterators.TableIterator.SeekFrom | src/table/iterator.rs:313-341 | the two-level search lands where a search of the flat sequence would, across block boundaries; past the end exactly when no key is at or above the target |
| TableIterators.TableIterator.SeekForPrev | src/table/iterator.rs:350-355 | lands on the last entry at or below the target, before the start when there is none |
| TableIterators.TableIterator.NextInner | src/table/iterator.rs:360-386 | one step forward in the flat sequence, onto the first entry when just created; at EOF it stays |
| TableIterators.TableIterator.PrevInner | src/table/iterator.rs:391-418 | one step back; before the start it stays; after a `next` that ran off the end it reports a block-index error; just created it goes to the last entry of the first block |
| TableIterators.TableIterator.Next | src/table/iterator.rs:440-446 | one step in the direction of travel, staying at the end, with `valid` exact, also for an iterator just created |
| TableIterators.TableIterator.Rewind | src/table/iterator.rs:449-455 | to the first entry in the direction of travel |
| TableIterators.TableIterator.Seek | src/table/iterator.rs:458-464 | the abstract seek of the flat sequence, in either direction |
| TableIterators.SeekLifts | src/table/iterator.rs:322-341 | a seek inside the block chosen by the index decides the seek of the whole table |
| TableIterators.FirstKeysOrder | src/table/iterator.rs:319-326 | the index keys are strictly increasing, so the search over them is sound |
| Builders.Builder.AddHelper | src/table/builder.rs:72-98 | appends one entry to the open block and keeps buffer, offsets, base key, hashes and index in step with the entries added; `estimated_size` grows by what the entry counts for, and the call panics exactly when that sum overflows |
| Builders.Builder.EstimateCovers | src/table/builder.rs:124-140 | an entry the estimate lets in leaves the block, once finished, within the block size |
| Builders.Builder.FinishBlock | src/table/builder.rs:100-122 | seals the open block: offsets, count, checksum and an index entry; nothing when it is empty |
| Builders.Builder.Add | src/table/builder.rs:143-152 | exactly when it panics; otherwise the entry goes last, the open block being closed first exactly when, in numbers, it would need more than the block size with the entry; `estimated_size` grows by a sum stated in numbers |
| Builders.Builder.AcceptsInNumbers | src/table/builder.rs:124-140 | when `add` returns, in numbers: the size assertion and the sum in the index |
| Builders.Builder.Finish | src/table/builder.rs:168-191 | the bytes are the blocks, then index and footer; the filter marks exactly the probes of the added keys; no block exceeds the limit; an empty builder gives no bytes; it fails exactly when the encoded index breaks the length assertion |
| Builders.AppendEntry | src/table/builder.rs:72-98 | extending a block extends its data and offsets by one entry |
| Tables.Open | src/table.rs:166-242 | opens exactly when the footer and the last block can be read and, in the modes that check on opening, every block is readable with the right sum; smallest and biggest are the first index key and the last key of the last block |
| Tables.VerifyAll | src/table.rs:405-418 | on any table succeeds exactly when every block is readable with the right sum, and otherwise reports the first that is not |
| Tables.Biggest | src/table.rs:194-207 | the last key of the last block, or an error of its own when that block cannot be read |
| Tables.HeldOpens | src/table.rs:405-418 | every block of a well-formed table passes, in every mode |
| Tables.DoesNotHave | src/table.rs:384-392 | true exactly when a filter is stored and one of the hash's probes is clear; the division by zero is a panic |
| Tables.NeverLosesAKey | src/table.rs:384-392 | with fewer than 2^32 filter bits `does_not_have` is false for every user key the filter was built from |
| Tables.LosesNothingWhen | src/table.rs:384-392 | for tables of n sorted entries and any hash function that holds if and only if the filter has fewer than 2^32 bits |
| Tables.BuildThenAsk | src/table.rs:384-392 | a table built and opened never denies the user key of one of its pairs, with no filter or one below 2^32 bits |
| Tables.BlockSizeBound | src/table/builder.rs:124-140 | every finished block of two or more entries, checksum and trailer included, is at most the block size |
| Tables.PackedNext | src/table/builder.rs:143-152 | one `add` keeps every block ending exactly where the next entry no longer fits |
| Tables.BuiltIsReadable | src/table.rs:209-242 | what `finish` writes opens to the same index and blocks |
| IndexSizes.BuiltIndexSize | src/table/builder.rs:168-191 | the encoded index is at most the keys' bytes, 24 for each entry, the filter and 29 |
| Tables.Write | src/table/builder.rs:143-191 | building from sorted pairs keeps all of them, in order; every block ends exactly where the next entry would need more than the block size; it succeeds whenever table, open block and index fit 32 bits |
| Tables.Build | src/table.rs:166-242 | a table written and opened holds exactly the pairs, knows its first and last key, carries the filter of their user keys, has no block of two or more entries above the block size, and ends each block exactly where the next entry no longer fits |
| Tables.ReadAll | src/table/iterator.rs:440-455 | rewind and repeated next list the flat sequence in the direction of travel, then stop |
| Tables.WriteThenRead | src/table/builder.rs:143-191 | write, open, scan: the pairs come back with their stored value bytes in order or reversed, for every block size, checksum mode and filter setting; it succeeds whenever table, open block and index fit 32 bits |
| Cursors.SeekJoins | src/table/iterator.rs:313-341 | a seek decided inside one stretch of a sorted sequence is the seek of the whole |
| Cursors.FlatAt | src/table/iterator.rs:360-386 | entry j of part b sits at the part's start plus j in the concatenation |
| ConcatIterators.ConcatIterator.SetIdx | src/table/concat_iterator.rs:30-39 | selects a table, opening it on first use, and leaves the other children alone; past the end no table |
| ConcatIterators.ConcatIterator.Next | src/table/concat_iterator.rs:51-77 | one step in the concatenated sequence, in either direction, and it terminates |
| ConcatIterators.ConcatIterator.NextTable | src/table/concat_iterator.rs:58-76 | running out of one table leads to the first entry of its neighbour or to the end |
| ConcatIterators.ConcatIterator.Rewind | src/table/concat_iterator.rs:79-90 | to the first entry of the concatenation in the direction of travel |
| ConcatIterators.ConcatIterator.Seek | src/table/concat_iterator.rs:92-117 | the abstract seek of the concatenation, in either direction |
| ConcatIterators.DecidesMonotone | src/table/concat_iterator.rs:96-112 | the edge-key predicate over the tables is monotone, so the binary search is sound |
| ConcatIterators.SeekWithin | src/table/concat_iterator.rs:92-117 | the first table whose edge reaches the target decides the seek |
| ConcatIterators.SeekBeyond | src/table/concat_iterator.rs:99-112 | when no edge reaches the target, everything lies before it |
| MergeSpec.MergeSorted | src/table/merge_iterator.rs:116-146 | the left-biased merge of two strictly sorted sequences is strictly sorted, so no key repeats |
| MergeSpec.MergeIsUnion | src/table/merge_iterator.rs:116-146 | it holds exactly the left entries and the right entries whose key is not on the left |
| MergeSpec.MergeSeek | src/table/merge_iterator.rs:210-215 | seeking both sides leaves exactly the tail of the merge at the target |
| MergeSpec.DropRight | src/table/merge_iterator.rs:129-136 | skipping the right copy of a shared head key changes nothing |
| MergeSpec.MergeAllSorted | src/table/merge_iterator.rs:160-188 | the balanced tree over any list of sorted iterators yields a strictly sorted sequence |
| MergeSpec.MergeAllIsUnion | src/table/merge_iterator.rs:160-188 | an entry is in it exactly when the lowest-indexed iterator holding its key holds that entry |
| MergeSpec.MergeAllHasKey | src/table/merge_iterator.rs:160-188 | its keys are exactly those of all iterators |
| MergeIterators.IteratorNode.SetKey | src/table/merge_iterator.rs:51-57 | the buffered key and flag agree with the wrapped iterator |
| MergeIterators.MergeIterator.Fix | src/table/merge_iterator.rs:116-146 | afterwards the flag points at the child to emit next and no key waits on both sides; the merged remainder is unchanged |
| MergeIterators.MergeIterator.DropTwin | src/table/merge_iterator.rs:129-136 | the Equal arm passes over the right copy only |
| MergeIterators.MergeIterator.Next | src/table/merge_iterator.rs:192-201 | exactly one step in the merged sequence, loop included; at the end it stays |
| MergeIterators.MergeIterator.Rewind | src/table/merge_iterator.rs:203-208 | to the start of the merge |
| MergeIterators.MergeIterator.Seek | src/table/merge_iterator.rs:210-215 | the abstract seek of the merge, in either direction |
| MergeIterators.MergeIterator.Val | src/table/merge_iterator.rs:221-223 | the value stored with the merged entry, hence the left one of a shared key |
| MergeIterators.FromIterators | src/table/merge_iterator.rs:160-188 | the tree built from separate sorted iterators of any kind enumerates their merge and owns nothing it did not get or allocate |
| MergeIterators.Collect | src/table/merge_iterator.rs:191-227 | rewind and repeated next list the whole sequence of any iterator, table, concat or tree |
| Scans.MergeTables | src/table/merge_iterator.rs:160-227 | a merge tree over freshly built tables yields, sorted, exactly the entries whose key no earlier table has |
| Scans.ConcatTables | src/table/concat_iterator.rs:19-117 | a concat iterator over freshly built disjoint tables yields everything written, in order or reversed |
| Wal.HeaderRoundTrip | src/wal.rs:50-72 | an entry header survives with the rest of the stream intact |
| Wal.HeaderCut | src/wal.rs:62-72 | a header cut anywhere decodes to one of the two errors that end iteration quietly |
| Wal.EntryLayout | src/wal.rs:170-190 | an entry's bytes: meta, user meta, three varints (key length, value length, expiry), key, value |
| Wal.DecodeEntryIs | src/value.rs:171-191 | on any bytes an entry is read exactly when one lies whole at the front, its key at most 2^16 bytes |
| Wal.EntryRoundTrip | src/value.rs:171-191 | a whole entry reads back; a key above 2^16 bytes is refused |
| Wal.EntryCut | src/wal.rs:306-333 | a cut entry ends the log, except that an oversized key fails once its header is whole |
| Wal.ZerosEnd | src/wal.rs:155-163 | the zeros after the last entry end the log wherever they are cut |
| Wal.ReplayTruncated | src/wal.rs:306-333 | replay of any truncation of any log returns exactly what survives it |
| Wal.PlainSurvivors | src/wal.rs:306-333 | with non-empty keys of at most 2^16 bytes that is every entry ending at or before the cut, in order, and never an error |
| Wal.ReplayIsExactlyPlain | src/wal.rs:306-333 | what is read from a log not cut inside its entries is exactly its entries if and only if all keys are such |
| Wal.EmptyKeyHidesTheRest | src/wal.rs:312-316 | nothing from an entry with an empty key on is ever read |
| Wal.Wal.WriteEntry | src/wal.rs:140-148 | the entry's bytes go after those written, 21 zeros follow, all other bytes stay |
| Wal.Wal.ZeroNextEntry | src/wal.rs:155-163 | 21 zeros at the write position and no other byte touched; this is also how a new file starts |
| Wal.Wal.Truncate | src/wal.rs:229-239 | later reads see the first `end` bytes; contents written stay |
| Wal.Wal.Open | src/wal.rs:92-133 | an existing file opens with writing starting over at 0 |
| Wal.WalIterator.Next | src/wal.rs:306-333 | one turn of replay; the cursor moves past the entry returned |
| Wal.ReadAll | src/wal.rs:306-333 | iterating to the end is the replay of the unread bytes |
| Wal.WriteCutReplay | src/wal.rs:140-190 | create, write any entries, cut the file anywhere, reopen, iterate: exactly the survivors come back |
| KeyRanges.ExtendIsLeast | src/levels/compaction.rs:28-62 | `extend` covers both ranges and is contained in every range that does |
| KeyRanges.ExtendCommutes | src/levels/compaction.rs:28-62 | `extend` is commutative |
| KeyRanges.ExtendAssociates | src/levels/compaction.rs:28-62 | `extend` is associative |
| KeyRanges.OverlapsIsCommonKey | src/levels/compaction.rs:65-94 | `overlaps_with` is true exactly when the asked range is Empty or some key lies in both; symmetric between non-Empty ranges |
| KeyRanges.GetKeyRange | src/levels/compaction.rs:298-323 | None for no tables; otherwise the range from the least smallest to the greatest biggest user key, with its ends in order |
| KeyRanges.UserRangeContains | src/levels/compaction.rs:298-323 | that range holds exactly the versions of the user keys between its ends |
| KeyRanges.UserRangeHoldsTables | src/levels/compaction.rs:298-323 | so it holds every key of every table it was computed from |
| KeyRanges.UserRangesOverlap | src/levels/compaction.rs:65-94 | two such ranges overlap exactly when their user-key intervals meet |
| Compaction.CompactStatus.RemoveRange | src/levels/compaction.rs:113-119 | removes every equal range of one level and reports whether there was one |
| Compaction.CompactStatus.OverlapsWith | src/levels/compaction.rs:121-123 | true exactly when some range of the level overlaps the given one |
| Compaction.CompactStatus.CompareAndAdd | src/levels/compaction.rs:223-264 | the full new state when admitted, the old state when refused, and when it panics |
| Compaction.CompactStatus.Delete | src/levels/compaction.rs:189-221 | the full new state, and when it panics |
| Compaction.AdmitsWhen | src/levels/compaction.rs:223-264 | for all ranges, Empty ones included, in terms of keys: when `compare_and_add` refuses, and when it succeeds |
| Compaction.EmptyMeets | src/levels/compaction.rs:65-73 | an Empty range, the initial one of every definition, is only kept out by another Empty |
| Compaction.DeletesWhen | src/levels/compaction.rs:189-221 | when `delete` succeeds, on any status, and what it leaves on every level |
| Compaction.RetainJoins | src/levels/compaction.rs:115-119 | `remove` filters a level range by range |
| Compaction.InsertWhen | src/levels/compaction.rs:255-261 | the insert assertions pass exactly for distinct ids that are all new |
| Compaction.RemoveWhen | src/levels/compaction.rs:214-220 | the remove assertions pass exactly for distinct ids that are all present |
| Compaction.DeleteUndoesAdd | src/levels/compaction.rs:189-264 | delete right after admission restores the status if and only if the definition is `Undoable`, and what happens otherwise |
| Compaction.EmptyBlocks | src/levels/compaction.rs:65-94 | a leftover Empty range keeps every later compaction from or into its level out |
| Compaction.EmptyIsLeftBehind | src/levels/compaction.rs:203-206 | the smallest such history |
| CompactionRuns.AddKeeps | src/levels/compaction.rs:223-264 | an admissible compaction is refused exactly when it clashes with a live one, its table assertions never fail, and the status stays the sum of the live ones |
| CompactionRuns.DeleteKeeps | src/levels/compaction.rs:189-221 | deleting any live compaction never panics and removes only what it brought |
| CompactionRuns.RunsKeep | src/levels/compaction.rs:188-264 | after every history the levels hold exactly the live ranges, pairwise apart, `del_size` is the sum of live sizes, the table set the disjoint union of live tables |
| CompactionRuns.OnlyOverflowPanics | src/levels/compaction.rs:188-264 | over every history a call panics if and only if it is an admitted add whose size overflows `del_size` |
| CompactionRuns.Exclusion | src/levels/compaction.rs:188-264 | two live compactions never share a table, and no key lies in a range of both on one level |
| CompactionRuns.SharedTableClashes | src/levels/compaction.rs:65-94 | two compactions that hold the same table clash |
| CompactionRuns.NoneLiveIsFresh | src/levels/compaction.rs:188-264 | with every compaction deleted the status is as it began |
| Bloom.SetBit | src/bloom.rs:24-33 | sets one bit of the buffer and no other |
| Bloom.GetBitIs | src/bloom.rs:13-17 | bit idx is in byte idx / 8, counted from the least significant bit |
| Bloom.Build | src/bloom.rs:62-86 | a bit is set if and only if it is a probe of some key; the length follows the bits per key |
| Bloom.MayContain | src/bloom.rs:88-104 | true exactly when every probe of the hash, with wrapping additions, hits a set bit, or the stored k is too large; a bit count that is 0 modulo 2^32 divides by zero |
| Bloom.ProbeStep | src/bloom.rs:80-84 | the i-th wrapping addition of the rotated hash |
| Bloom.DeltaRotates | src/bloom.rs:75 | the step between probes is the hash rotated right by 17 bits, bit by bit |
| Bloom.BitsAre | src/bloom.rs:67-70 | the filter is whole bytes, at least 64 bits and the bits asked for, and no longer than that takes |
| Bloom.SameModulus | src/bloom.rs:96 | reader and builder use the same modulus if and only if the bit count is below 2^32 |
| Bloom.NoFalseNegative | src/bloom.rs:62-104 | below 2^32 bits every inserted hash is reported |
| Bloom.ReportsWhen | src/bloom.rs:62-104 | every filter reports everything put into it if and only if it has fewer than 2^32 bits, for every number of keys, of bits per key and of probes |
| Bloom.AllOnesDenied | src/bloom.rs:78-104 | from 2^32 bits on, keys with the hash 2^32 - 1 are always denied, or the reader divides by zero |
| Bloom.FalseNegative | src/bloom.rs:78-96 | 2^22 keys with that hash at 1025 bits per key are denied, at 1024 the reader divides by zero |

## Left out

- Skiplist memory: the towers are a map from arena offsets, not memory words; a step reads or writes one word, sequentially consistent as the SeqCst atomics are. In-place update of raw memory, weak-memory effects and reclamation (`drop_in_place`, `SkiplistCore::drop`) are not modelled.
- The losing put's node: its key and value are moved out of a node no one else can reach (skiplist/src/list.rs:222-232); the model keeps the unlinked node as it was.
- Arena counter: the 32-bit counter is taken not to wrap while nodes are allocated, and node sizes are those of a 64-bit target.
- SkiplistReads.PrevUndoesNext: stated on a list at rest; under concurrent puts `prev` may meet a node inserted in between.
- CRC32C, farmhash: foreign code; the checksum is an arbitrary function to 32 bits, the hash an arbitrary function of the user key.
- Floating point in the Bloom filter: bits per key is any natural number, k any value in 1..30.
- Builders.Builder.Add: a first entry of a block that takes the table past 2^32 bytes is a panic, where the code checks nothing and would go on with truncated offsets; keys above 65535 bytes, which the code takes when enough of them is shared with the base key, are excluded.
- Builders.Builder.Finish: `estimated_size` is stated step by step by `Add`, not as a sum over the table; `max_version` and `key_count` stay zero as in the code.
- Tables.Open: the last block, when it can be read, is one a builder made; iterators and scans ask that of all blocks. What entries that do not parse do to the iterators is not modelled.
- TableIterators.TableIterator.NextInner: the recursive call after the last entry of a block always takes the branch that loads a block, so it is a call of `NextBlock` (and `PrevBlock` for `prev_inner`).
- TableIterators.TableIterator.SeekFrom: for SeekPos::Origin, the only position it is called with.
- ConcatIterators.ConcatIterator.Next: asks for a current entry; the loop of the source leaves on its first turn because opened tables are not empty, and is written without the loop.
- MergeIterators.FromIterators: the empty list, on which the source panics, is excluded; iterators must not share state.
- Wal.Wal.WriteEntry: asks for room for the entry and the zeros after it; the source panics on a slice otherwise.
- Wal.Wal.Open: file creation, mapping, `sync` and the directory are I/O; the file is an array, and a shortened file is one whose `size` is smaller. Appending after a reopen starts at offset 0 in the source and is not given a meaning here.
- Wal.Wal.Truncate: `done_writing`, `read` by value pointer, `set_len` and `set_size` are not part of this model.
- Compaction.CompactStatus.CompareAndAdd: after a panic nothing is said about the state.
- CompactionRuns.RunsKeep: for compactions between two different levels with non-Empty ranges that cover their tables; what happens outside that is `Compaction.DeleteUndoesAdd`.
- Proto messages: wire types other than varint and length-delimited do not occur in these messages.
- key_splits, reach_capacity, the block cache, encryption, compression, xxHash64 and the file-backed variant of a table.
- The memtable, level handler, transactions and `Core::get`, which are stubs or thin wrappers, and all options and file-name parsing.
