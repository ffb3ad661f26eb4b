/** Snapshot reads: `get` on the skiplist with timestamped keys. */
module Mvcc {
  import opened Wrappers
  import opened Bytes
  import opened Keys
  import opened Skiplist
  import opened SkiplistInvariant
  import opened SkiplistTheorems
  import opened SkiplistRuns
  import opened SkiplistReads

  function KeyCompare(): (Key, Key) -> bool { (a: Key, b: Key) => Before(a, b) }

  lemma KeyCompareTotal()
    ensures TotalOrder(KeyCompare())
  {
    hide Before;
    KeyOrder();
  }

  /** Node n of the chain s holds a version of `user` that a read at `ts` may see. */
  ghost predicate Visible<V>(e: Entries<Key, V>, s: seq<nat>, n: nat, user: Bytes, ts: nat) {
    n in s && n in e && UserKey(e[n].key) == user && GetTs(e[n].key) <= ts
  }

  /** The node `get` looks at: a version of `user` exactly when one is visible, and then the newest visible one. */
  lemma SnapshotRead<V>(e: Entries<Key, V>, s: seq<nat>, user: Bytes, ts: nat, n: nat)
    requires SortedNodes(KeyCompare(), e, s) && NIL !in s && ts < U64
    requires n == Scan(KeyCompare(), e, s, KeyWithTs(user, ts), false, true)
    ensures (exists q :: Visible(e, s, q, user, ts)) <==> n != NIL && n in e && SameKey(e[n].key, KeyWithTs(user, ts))
    ensures n != NIL && n in e && SameKey(e[n].key, KeyWithTs(user, ts)) ==>
              Visible(e, s, n, user, ts) && forall q :: Visible(e, s, q, user, ts) ==> GetTs(e[q].key) <= GetTs(e[n].key)
  {
    hide LexLess, KeyWithTs, UserKey, GetTs, Scan, TotalOrder, Before;
    var key := KeyWithTs(user, ts);
    KeyParts(user, ts);
    KeyCompareTotal();
    ScanNearest(KeyCompare(), e, s, key, false, true);
    assert n != NIL ==> n in s && n in e && (Before(key, e[n].key) || e[n].key == key);
    LexIrreflexive(user);
    if n != NIL { VersionOrder(key, e[n].key); }
    forall q | Visible(e, s, q, user, ts)
      ensures n != NIL && UserKey(e[n].key) == user && GetTs(e[q].key) <= GetTs(e[n].key)
    {
      VersionOrder(e[q].key, key);
      BeforeTotal(e[q].key, key);
      assert Accepts(KeyCompare(), e[q].key, key, false, true);
      assert q in NodeSet(s);
      if q != n {
        assert Before(e[n].key, e[q].key);
        VersionOrder(e[n].key, e[q].key);
        if LexLess(user, UserKey(e[n].key)) && LexLess(UserKey(e[n].key), user) {
          LexTransitive(user, UserKey(e[n].key), user);
        }
      }
    }
    if n != NIL && SameKey(e[n].key, key) {
      assert Visible(e, s, n, user, ts);
    }
  }

  /** `get_with_key` on a quiescent list. */
  method Get<V>(l: List<Key, V>, user: Bytes, ts: nat, ghost s: seq<nat>) returns (r: Option<Entry<Key, V>>)
    requires Sound(KeyCompare(), l) && LevelZero(l, s) && ts < U64
    ensures r.Some? <==> exists q :: Visible(l.entries, s, q, user, ts)
    ensures r.Some? ==> exists n :: Visible(l.entries, s, n, user, ts) && l.entries[n] == r.value
                                    && forall q :: Visible(l.entries, s, q, user, ts) ==> GetTs(l.entries[q].key) <= GetTs(r.value.key)
  {
    hide ListInv, SortedNodes, LevelZero, TotalOrder, Scan;
    var key := KeyWithTs(user, ts);
    var node := FindNear(KeyCompare(), l, key, false, true, s);
    ghost var t := SoundLevelZero(KeyCompare(), l);
    SameLevelZero(l, s, t);
    SnapshotRead(l.entries, s, user, ts, node);
    r := if node != NIL && node in l.entries && SameKey(l.entries[node].key, key) then Some(l.entries[node]) else None;
  }

  /** A `get` that overlaps any number of puts: at the step where it returns, the node it looks at is the
    * newest version of the key that level 0 then holds at or below ts, or no version is visible. */
  lemma SnapshotReadInRun<V>(ss: seq<State<Key, V>>, acts: seq<Action<Key, V>>, j: nat, user: Bytes, ts: nat)
    returns (s: seq<nat>)
    requires Run(KeyCompare(), ss, acts) && j < |acts| && ts < U64
    requires acts[j].Move? && acts[j].thread in ss[j + 1].threads
    requires var r := ss[j + 1].threads[acts[j].thread];
             r.op == Find(KeyWithTs(user, ts), false, true) && r.pc.Done?
    ensures var r, l := ss[j + 1].threads[acts[j].thread], ss[j + 1].list;
            && LevelZero(l, s) && r.pc.result.Found?
            && var n := r.pc.result.node;
            && ((exists q :: Visible(l.entries, s, q, user, ts))
                 <==> n != NIL && n in l.entries && SameKey(l.entries[n].key, KeyWithTs(user, ts)))
            && (n != NIL && n in l.entries && SameKey(l.entries[n].key, KeyWithTs(user, ts)) ==>
                  && Visible(l.entries, s, n, user, ts)
                  && forall q :: Visible(l.entries, s, q, user, ts) ==> GetTs(l.entries[q].key) <= GetTs(l.entries[n].key))
  {
    hide Next, AtomicEffect, Scan, SortedNodes, TotalOrder, KeyWithTs, Visible, ListInv, LevelZero, SameKey, GetTs;
    KeyCompareTotal();
    var h := RunsLinearize(KeyCompare(), ss, acts);
    assert HistoryStep(KeyCompare(), ss[j], acts[j], ss[j + 1], h[j], h[j + 1]);
    s := h[j + 1];
    ReachableSound(KeyCompare(), ss, acts, j + 1);
    var t := SoundLevelZero(KeyCompare(), ss[j + 1].list);
    SameLevelZero(ss[j + 1].list, s, t);
    SnapshotRead(ss[j + 1].list.entries, s, user, ts, ss[j + 1].threads[acts[j].thread].pc.result.node);
  }

  lemma SameLevelZero<V>(l: List<Key, V>, s: seq<nat>, t: seq<nat>)
    requires LevelZero(l, s) && LevelZero(l, t)
    ensures s == t
  {
    ChainUnique(l.towers, HEAD, 0, s, t);
  }
}
