/** Scans over several tables, from the pairs written to the entries read. */
module Scans {
  import opened Wrappers
  import opened Bytes
  import opened SstFormat
  import opened SstTable
  import opened Cursors
  import opened TableIterators
  import opened ConcatIterators
  import opened MergeSpec
  import opened MergeIterators
  import opened Tables
  import opened Builders
  import Bloom

  datatype Options = Options(blockSize: nat, sum: Summer, hash: Bytes -> nat, bitsPerKey: Option<nat>, probes: nat, mode: ChecksumMode)

  ghost predicate OptionsOk(o: Options) {
    SummerOk(o.sum) && (forall b :: o.hash(b) < U32) && 1 <= o.probes <= Bloom.MAX_K
  }

  ghost predicate RunsOk(runs: seq<seq<Pair>>) { forall i :: 0 <= i < |runs| ==> runs[i] != [] && PairsOk(runs[i]) }

  ghost predicate RoomForAll(runs: seq<seq<Pair>>, o: Options) {
    forall i :: 0 <= i < |runs| ==> Room(runs[i], o.blockSize, o.bitsPerKey)
  }

  /** What each run stores, as an iterator in the given direction meets it. */
  ghost function Lists(reversed: bool, runs: seq<seq<Pair>>): (ls: seq<seq<Item>>)
    ensures |ls| == |runs|
  {
    seq(|runs|, i requires 0 <= i < |runs| => Directed(reversed, ItemsOf(runs[i])))
  }

  ghost predicate Stores(tables: seq<Table>, contents: seq<seq<seq<Item>>>, runs: seq<seq<Pair>>) {
    && |tables| == |contents| == |runs|
    && forall i :: 0 <= i < |tables| ==> Opened(tables[i], contents[i]) && Flatten(contents[i]) == ItemsOf(runs[i])
  }

  /** One table for each run. */
  method BuildAll(runs: seq<seq<Pair>>, o: Options) returns (r: Result<seq<Table>, TableError>, ghost contents: seq<seq<seq<Item>>>)
    requires OptionsOk(o) && RunsOk(runs)
    ensures RoomForAll(runs, o) ==> r.Ok?
    ensures r.Ok? ==> Stores(r.value, contents, runs)
  {
    hide Holds, Flatten, Room, BlockBytes, FilterOf, Packed, Sorted, PairsOk;
    var tables := [];
    contents := [];
    for i := 0 to |runs|
      invariant Stores(tables, contents, runs[..i])
    {
      ghost var blocks;
      var t;
      RunSorted(runs[i]);
      t, blocks := Build(runs[i], o.blockSize, o.sum, o.hash, o.bitsPerKey, o.probes, o.mode);
      if t.Err? { return Err(t.error), contents; }
      tables, contents := tables + [t.value], contents + [blocks];
    }
    assert runs[..|runs|] == runs;
    r := Ok(tables);
  }

  lemma RunSorted(pairs: seq<Pair>)
    requires PairsOk(pairs)
    ensures Sorted(false, ItemsOf(pairs))
    ensures forall i :: 0 <= i < |pairs| ==> ItemsOf(pairs)[i].key == pairs[i].key
  {}

  /** A merge tree over freshly built tables yields the sorted left-biased union of everything written. */
  method MergeTables(runs: seq<seq<Pair>>, o: Options, reversed: bool) returns (r: Result<seq<Item>, TableError>)
    requires OptionsOk(o) && RunsOk(runs) && runs != []
    ensures RoomForAll(runs, o) ==> r.Ok?
    ensures r.Ok? ==> Sorted(reversed, r.value)
    ensures r.Ok? ==> forall x :: x in r.value <==> exists i :: FirstHolder(Lists(reversed, runs), i, x)
  {
    hide Stores, Sorted, RunsOk, Mergeable, RoomForAll, OptionsOk, MergeAll, FirstHolder, Iterators.Valid, Iterators.Items, Lists, AllItems, Iterators.Repr;
    ghost var contents;
    var tables;
    tables, contents := BuildAll(runs, o);
    if tables.Err? { return Err(tables.error); }
    ghost var footprint;
    var its;
    its, footprint := NewIterators(tables.value, contents, runs, reversed);
    var tree := FromIterators(its, reversed, footprint);
    var items := Collect(tree);
    ListsSorted(reversed, runs);
    forall x ensures x in items <==> exists i :: FirstHolder(Lists(reversed, runs), i, x) {
      MergeAllIsUnion(reversed, Lists(reversed, runs), x);
    }
    r := Ok(items);
  }

  lemma ListsSorted(reversed: bool, runs: seq<seq<Pair>>)
    requires RunsOk(runs)
    ensures forall i :: 0 <= i < |runs| ==> Sorted(reversed, Lists(reversed, runs)[i])
  {
    hide Sorted, PairsOk, Directed;
    forall i | 0 <= i < |runs| ensures Sorted(reversed, Lists(reversed, runs)[i]) {
      RunSorted(runs[i]);
      DirectedSorted(reversed, ItemsOf(runs[i]));
    }
  }

  /** `new_iterator` on every table. */
  method NewIterators(tables: seq<Table>, ghost contents: seq<seq<seq<Item>>>, ghost runs: seq<seq<Pair>>, reversed: bool)
    returns (its: seq<Iterators>, ghost footprint: set<object>)
    requires Stores(tables, contents, runs)
    ensures fresh(footprint) && |its| == |tables| && Mergeable(its, reversed, footprint)
    ensures AllItems(its) == Lists(reversed, runs)
  {
    hide Holds, Flatten, Sorted, Directed, ItemsOf, Mergeable, TableIterator.Valid, Iterators.Repr, Iterators.Valid;
    its, footprint := [], {};
    NothingMergeable(reversed);
    for i := 0 to |tables|
      invariant fresh(footprint) && |its| == i && Mergeable(its, reversed, footprint)
      invariant AllItems(its) == Lists(reversed, runs)[..i]
    {
      assert Opened(tables[i], contents[i]);
      var it := new TableIterator(tables[i], reversed, contents[i]);
      DirectedSorted(reversed, Flatten(contents[i]));
      FreshIsSound(it, reversed);
      MergeableGrows(its, reversed, footprint, TableIt(it), {it});
      its, footprint := its + [TableIt(it)], footprint + {it};
    }
  }

  lemma FreshIsSound(it: TableIterator, reversed: bool)
    requires it.Valid() && it.bi == null && it.reversed == reversed && Sorted(reversed, it.Items())
    ensures Sound(TableIt(it), reversed, {it}) && TableIt(it).Items() == it.Items()
  {
    hide TableIterator.Valid, Sorted;
  }

  lemma NothingMergeable(reversed: bool)
    ensures Mergeable([], reversed, {})
  {}

  lemma MergeableGrows(its: seq<Iterators>, reversed: bool, footprint: set<object>, it: Iterators, own: set<object>)
    requires Mergeable(its, reversed, footprint) && Sound(it, reversed, own) && footprint !! own
    ensures Mergeable(its + [it], reversed, footprint + own)
  {
    hide Iterators.Valid, Iterators.Items, Iterators.Reversed, Sorted;
    var more := its + [it];
    forall i | 0 <= i < |more| ensures Sound(more[i], reversed, footprint + own) {
      if i < |its| { assert Sound(its[i], reversed, footprint); }
    }
    forall i, j | 0 <= i < j < |more| ensures Separate(more[i], more[j], footprint + own) {
      assert Sound(its[i], reversed, footprint);
      if j < |its| { assert Separate(its[i], its[j], footprint); }
    }
  }

  /** A concat iterator over tables of disjoint, ascending runs yields everything written, in order or reversed. */
  method ConcatTables(runs: seq<seq<Pair>>, o: Options, reversed: bool) returns (r: Result<seq<Item>, TableError>)
    requires OptionsOk(o) && RunsOk(runs) && Sorted(false, Flatten(Lists(false, runs)))
    ensures RoomForAll(runs, o) ==> r.Ok?
    ensures r.Ok? ==> r.value == Directed(reversed, Flatten(Lists(false, runs)))
  {
    hide Sorted, RunsOk, RoomForAll, OptionsOk, Flatten, Opened, ConcatIterator.Valid;
    ghost var contents;
    var tables;
    tables, contents := BuildAll(runs, o);
    if tables.Err? { return Err(tables.error); }
    assert Flats(contents) == Lists(false, runs);
    var c := new ConcatIterator(tables.value, reversed, contents);
    var items := Collect(ConcatIt(c));
    r := Ok(items);
  }
}
