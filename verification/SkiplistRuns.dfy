/** The properties of the skiplist over every run of every interleaving. */
module SkiplistRuns {
  import opened Wrappers
  import opened Skiplist
  import opened SkiplistInvariant
  import opened SkiplistTheorems

  lemma InitInv<K(!new), V>(lt: (K, K) -> bool, s: State<K, V>)
    requires Init(s)
    ensures Inv(lt, s, map[]) && LevelZero(s.list, [])
  {
    assert |Zeros(MAX_HEIGHT)| == MAX_HEIGHT;
    assert forall n, i :: !Linked(map[], n, i);
  }

  /** The history of level 0: entry j is the level-0 chain of state j. */
  ghost predicate History<K(!new), V>(lt: (K, K) -> bool, ss: seq<State<K, V>>, acts: seq<Action<K, V>>, h: seq<seq<nat>>) {
    && |h| == |ss| == |acts| + 1
    && h[0] == []
    && (forall j :: 0 <= j < |h| ==> LevelZero(ss[j].list, h[j]) && SortedNodes(lt, ss[j].list.entries, h[j]))
    && (forall j :: 0 <= j < |acts| ==> HistoryStep(lt, ss[j], acts[j], ss[j + 1], h[j], h[j + 1]))
  }

  ghost predicate Kept<K, V>(l: List<K, V>, s: seq<nat>, l': List<K, V>, s': seq<nat>) {
    forall q :: q in s ==> q in s' && q in l.entries && q in l'.entries && l'.entries[q] == l.entries[q]
  }

  ghost predicate HistoryStep<K(!new), V>(lt: (K, K) -> bool, st: State<K, V>, a: Action<K, V>, st': State<K, V>,
                                          s: seq<nat>, s': seq<nat>) {
    && Kept(st.list, s, st'.list, s')
    && (a.Invoke? ==> s' == s)
    && (a.Move? ==> a.thread in st.threads && a.thread in st'.threads
                    && AtomicEffect(st.threads[a.thread], st.list, s, st'.list, s')
                    && AnswerOk(lt, st'.threads[a.thread], st'.list, s'))
  }

  lemma {:induction false} RunInv<K(!new), V>(lt: (K, K) -> bool, ss: seq<State<K, V>>, acts: seq<Action<K, V>>, j: nat) returns (links: Links)
    requires TotalOrder(lt) && Run(lt, ss, acts) && j < |ss|
    ensures Inv(lt, ss[j], links)
  {
    hide Inv, Next, TotalOrder;
    if j == 0 {
      links := map[];
      InitInv(lt, ss[0]);
    } else {
      var before := RunInv(lt, ss, acts, j - 1);
      links := NextKeeps(lt, ss[j - 1], acts[j - 1], ss[j], before);
    }
  }

  /** Linearizability. Every run has a history in which each step either leaves level 0 unchanged or
      inserts the stepping put's own pair under an absent key; stored pairs never change or vanish; and
      every operation's answer agrees with level 0 at the step where it returns. */
  lemma {:induction false} RunsLinearize<K(!new), V>(lt: (K, K) -> bool, ss: seq<State<K, V>>, acts: seq<Action<K, V>>)
    returns (h: seq<seq<nat>>)
    requires TotalOrder(lt) && Run(lt, ss, acts)
    ensures History(lt, ss, acts, h)
    decreases |acts|
  {
    hide Inv, Next, TotalOrder, LevelZero, SortedNodes, HistoryStep;
    if |acts| == 0 {
      h := [[]];
      InitInv(lt, ss[0]);
      EmptySorted(lt, ss[0].list.entries);
    } else {
      var n := |acts| - 1;
      var h0 := RunsLinearize(lt, ss[..n + 1], acts[..n]);
      var links := RunInv(lt, ss, acts, n);
      assert Next(lt, ss[n], acts[n], ss[n + 1]);
      var s' := HistoryGrows(lt, ss[n], acts[n], ss[n + 1], links, h0[n]);
      h := h0 + [s'];
    }
  }

  lemma EmptySorted<K(!new), V>(lt: (K, K) -> bool, e: Entries<K, V>)
    ensures SortedNodes(lt, e, [])
  {}

  lemma HistoryGrows<K(!new), V>(lt: (K, K) -> bool, st: State<K, V>, a: Action<K, V>, st': State<K, V>, links: Links, s: seq<nat>)
    returns (s': seq<nat>)
    requires TotalOrder(lt) && Inv(lt, st, links) && Next(lt, st, a, st') && LevelZero(st.list, s)
    ensures LevelZero(st'.list, s') && SortedNodes(lt, st'.list.entries, s') && HistoryStep(lt, st, a, st', s, s')
  {
    hide ListInv, Regions, ThreadInv, StepThread, TotalOrder, LevelZeroEffect, SortedNodes, IsChain, AtomicEffect, AnswerOk;
    var links';
    links', s' := StepAtomic(lt, st, a, st', links, s);
    var t := LevelChain(lt, st'.list, links', 0);
    ChainUnique(st'.list.towers, HEAD, 0, s', t);
  }

  /** A pair on level 0 stays there, with the same value, for the rest of the run. */
  lemma {:induction false} StoredForever<K(!new), V>(lt: (K, K) -> bool, ss: seq<State<K, V>>, acts: seq<Action<K, V>>, h: seq<seq<nat>>, a: nat, b: nat)
    requires History(lt, ss, acts, h) && a <= b < |ss|
    ensures Kept(ss[a].list, h[a], ss[b].list, h[b])
    decreases b - a
  {
    hide LevelZero, AtomicEffect, AnswerOk;
    if a < b {
      StoredForever(lt, ss, acts, h, a, b - 1);
      assert HistoryStep(lt, ss[b - 1], acts[b - 1], ss[b], h[b - 1], h[b]);
    }
  }

  /** Keys on level 0 are distinct, and find_near(key, false, true) on a stored key returns its node. */
  lemma {:induction false} ScanFinds<K(!new), V>(lt: (K, K) -> bool, e: Entries<K, V>, s: seq<nat>, n: nat)
    requires TotalOrder(lt) && SortedNodes(lt, e, s) && n in s
    ensures Scan(lt, e, s, e[n].key, false, true) == n
    decreases |s|
  {
    var i :| 0 <= i < |s| && s[i] == n;
    if i > 0 {
      assert KeyLess(lt, e, s[0], n);
      ScanFinds(lt, e, s[1..], n);
    }
  }

  /** Once a put of a key has returned, every later-returning find_near for that key finds it, with the
      value that made the put return what it did. */
  lemma ReadsSeeFinishedPuts<K(!new), V>(lt: (K, K) -> bool, ss: seq<State<K, V>>, acts: seq<Action<K, V>>, a: nat, b: nat)
    requires TotalOrder(lt) && Run(lt, ss, acts) && a <= b < |acts|
    requires acts[a].Move? && acts[a].thread in ss[a + 1].threads && acts[b].Move? && acts[b].thread in ss[b + 1].threads
    requires var w := ss[a + 1].threads[acts[a].thread]; w.op.Put? && w.pc.Done?
    requires var r := ss[b + 1].threads[acts[b].thread];
             r.pc.Done? && r.op == Find(ss[a + 1].threads[acts[a].thread].op.key, false, true)
    ensures var w, r, l := ss[a + 1].threads[acts[a].thread], ss[b + 1].threads[acts[b].thread], ss[b + 1].list;
            && r.pc.result.Found? && r.pc.result.node in l.entries
            && l.entries[r.pc.result.node].key == w.op.key
            && w.pc.result == Returned(if l.entries[r.pc.result.node].value == w.op.value then None
                                       else Some(Entry(w.op.key, w.op.value)))
  {
    hide Next, LevelZero, AtomicEffect, Scan, SortedNodes, TotalOrder;
    var h := RunsLinearize(lt, ss, acts);
    var w, r, l := ss[a + 1].threads[acts[a].thread], ss[b + 1].threads[acts[b].thread], ss[b + 1].list;
    assert HistoryStep(lt, ss[a], acts[a], ss[a + 1], h[a], h[a + 1]);
    assert HistoryStep(lt, ss[b], acts[b], ss[b + 1], h[b], h[b + 1]);
    var n :| n in h[a + 1] && n in ss[a + 1].list.entries && ss[a + 1].list.entries[n].key == w.op.key
             && w.pc.result.rejected == if ss[a + 1].list.entries[n].value == w.op.value then None else Some(Entry(w.op.key, w.op.value));
    StoredForever(lt, ss, acts, h, a + 1, b + 1);
    ScanFinds(lt, l.entries, h[b + 1], n);
  }

  /** The levels of a list, read off its pointers: level i is a finite sorted chain of nodes tall enough
      for it, contained in level i - 1, and empty above the published height. */
  ghost predicate LevelOk<K, V>(lt: (K, K) -> bool, l: List<K, V>, i: nat, s: seq<nat>) {
    && IsChain(l.towers, HEAD, i, s) && SortedNodes(lt, l.entries, s)
    && (forall q :: q in s ==> q in l.towers && i < |l.towers[q]|)
    && (s != [] ==> i <= l.height)
    && (i > 0 ==> exists t :: IsChain(l.towers, HEAD, i - 1, t) && Within(s, t))
  }

  ghost predicate Within(s: seq<nat>, t: seq<nat>) { forall q :: q in s ==> q in t }

  lemma LevelsOk<K(!new), V>(lt: (K, K) -> bool, l: List<K, V>, links: Links, i: nat) returns (s: seq<nat>)
    requires TotalOrder(lt) && ListInv(lt, l, links) && i < MAX_HEIGHT
    ensures LevelOk(lt, l, i, s)
  {
    s := LevelChain(lt, l, links, i);
    hide Chained, KeysDistinct, TotalOrder, SortedNodes, IsChain;
    if s != [] { assert Linked(links, s[0], i); }
    if i > 0 {
      var t := LevelChain(lt, l, links, i - 1);
      forall q | q in s ensures q in t { assert Linked(links, q, i - 1); }
      assert Within(s, t);
    }
  }

  /** In every state of every run, every level is a sorted chain inside the level below. */
  lemma ReachableLevels<K(!new), V>(lt: (K, K) -> bool, ss: seq<State<K, V>>, acts: seq<Action<K, V>>, j: nat, i: nat)
    requires TotalOrder(lt) && Run(lt, ss, acts) && j < |ss| && i < MAX_HEIGHT
    ensures exists s :: LevelOk(lt, ss[j].list, i, s)
  {
    hide ListInv, Run, TotalOrder, LevelOk;
    var links := RunInv(lt, ss, acts, j);
    var s := LevelsOk(lt, ss[j].list, links, i);
  }

  /** x is met when following the level-i pointers from the head. */
  ghost predicate OnChain<K, V>(l: List<K, V>, i: nat, x: nat) {
    exists s :: IsChain(l.towers, HEAD, i, s) && x in s
  }

  lemma OnChainIs<K(!new), V>(lt: (K, K) -> bool, l: List<K, V>, links: Links, i: nat, x: nat)
    requires TotalOrder(lt) && ListInv(lt, l, links) && i < MAX_HEIGHT
    ensures OnChain(l, i, x) <==> Linked(links, x, i)
  {
    hide ListInv, TotalOrder, SortedNodes, IsChain, Linked;
    var s := LevelChain(lt, l, links, i);
    if t :| IsChain(l.towers, HEAD, i, t) && x in t { ChainUnique(l.towers, HEAD, i, s, t); }
  }

  lemma Slots<K(!new), V>(lt: (K, K) -> bool, l: List<K, V>, links: Links, x: nat)
    requires ListInv(lt, l, links)
    ensures x in links ==> x in l.towers && links[x] <= |l.towers[x]| <= MAX_HEIGHT
  {}

  /** In every reachable state a node of level 0 is on every level its tower reaches, or the put that
      allocated it is still linking it. */
  lemma TowersComplete<K(!new), V>(lt: (K, K) -> bool, ss: seq<State<K, V>>, acts: seq<Action<K, V>>, j: nat, x: nat, i: nat)
    requires TotalOrder(lt) && Run(lt, ss, acts) && j < |ss| && i < MAX_HEIGHT
    ensures OnChain(ss[j].list, i, x) ==> x in ss[j].list.towers && i < |ss[j].list.towers[x]| && OnChain(ss[j].list, 0, x)
    ensures OnChain(ss[j].list, 0, x) && x in ss[j].list.towers && i < |ss[j].list.towers[x]| ==>
              OnChain(ss[j].list, i, x) || exists t :: t in ss[j].threads && x in Owned(ss[j].threads[t].pc)
  {
    hide ListInv, Run, TotalOrder, OnChain, ThreadInv, Regions, Owned;
    var links := RunInv(lt, ss, acts, j);
    OnChainIs(lt, ss[j].list, links, i, x);
    OnChainIs(lt, ss[j].list, links, 0, x);
    Slots(lt, ss[j].list, links, x);
    if Linked(links, x, 0) { assert Attended(ss[j], links, x); }
  }

  /** At the step where a put that has published its node x returns, x is on every level of its tower. */
  lemma PutLinksAllLevels<K(!new), V>(lt: (K, K) -> bool, ss: seq<State<K, V>>, acts: seq<Action<K, V>>, j: nat, x: nat, i: nat)
    requires TotalOrder(lt) && Run(lt, ss, acts) && j < |acts| && acts[j].Move?
    requires acts[j].thread in ss[j].threads && x in Owned(ss[j].threads[acts[j].thread].pc)
    requires acts[j].thread in ss[j + 1].threads && ss[j + 1].threads[acts[j].thread].pc.Done?
    requires OnChain(ss[j + 1].list, 0, x) && x in ss[j + 1].list.towers && i < |ss[j + 1].list.towers[x]|
    ensures OnChain(ss[j + 1].list, i, x)
  {
    hide ListInv, TotalOrder, OnChain, ThreadInv, Regions, StepThread, AllAttended;
    var before := RunInv(lt, ss, acts, j);
    var links := RunInv(lt, ss, acts, j + 1);
    Slots(lt, ss[j + 1].list, links, x);
    OnChainIs(lt, ss[j + 1].list, links, 0, x);
    TowersComplete(lt, ss, acts, j + 1, x, i);
    assert Next(lt, ss[j], acts[j], ss[j + 1]);
    assert forall t :: t in ss[j + 1].threads && t != acts[j].thread ==> ss[j + 1].threads[t] == ss[j].threads[t];
  }

  /** With no operation under way, level i holds exactly the nodes of level 0 that are tall enough. */
  lemma RestingLevels<K(!new), V>(lt: (K, K) -> bool, ss: seq<State<K, V>>, acts: seq<Action<K, V>>, j: nat, x: nat, i: nat)
    requires TotalOrder(lt) && Run(lt, ss, acts) && j < |ss| && i < MAX_HEIGHT
    requires forall t :: t in ss[j].threads ==> Finished(ss[j].threads[t])
    ensures OnChain(ss[j].list, i, x) <==>
            OnChain(ss[j].list, 0, x) && x in ss[j].list.towers && i < |ss[j].list.towers[x]|
  {
    hide Run, TotalOrder, OnChain;
    TowersComplete(lt, ss, acts, j, x, i);
  }

  /** The published height is never more than some allocated tower asked for. */
  ghost predicate HeightReached<K, V>(l: List<K, V>) {
    l.height == 0 || exists n :: n in l.entries && n in l.towers && |l.towers[n]| == l.height + 1
  }

  lemma {:induction false} HeightIsReached<K(!new), V>(lt: (K, K) -> bool, ss: seq<State<K, V>>, acts: seq<Action<K, V>>, j: nat)
    requires TotalOrder(lt) && Run(lt, ss, acts) && j < |ss|
    ensures HeightReached(ss[j].list)
  {
    hide ListInv, TotalOrder, HeightReached, Regions;
    if j > 0 {
      HeightIsReached(lt, ss, acts, j - 1);
      assert Next(lt, ss[j - 1], acts[j - 1], ss[j]);
      if acts[j - 1].Move? {
        var links := RunInv(lt, ss, acts, j - 1);
        RaiseReaches(lt, ss[j - 1].list, links, ss[j - 1].threads[acts[j - 1].thread], acts[j - 1].choice);
      }
    } else {
      NoHeight(ss[0]);
    }
  }

  lemma NoHeight<K, V>(s: State<K, V>)
    requires Init(s)
    ensures HeightReached(s.list)
  {}

  lemma RaiseReaches<K(!new), V>(lt: (K, K) -> bool, l: List<K, V>, links: Links, th: Thread<K, V>, c: Choice)
    requires ListInv(lt, l, links) && Regions(l.towers, l.arenaLen, l.arenaCap) && ThreadInv(lt, l, links, th)
    requires HeightReached(l) && c.height < MAX_HEIGHT
    ensures HeightReached(StepThread(lt, l, th, c).0)
  {
    hide Chained, KeysDistinct, Regions;
    AllocFresh(l.towers, l.arenaLen, l.arenaCap);
    var l' := StepThread(lt, l, th, c).0;
    if th.op.Put? && th.pc.Raise? && l'.height != l.height {
      assert th.pc.node in l'.entries && |l'.towers[th.pc.node]| == l'.height + 1;
    } else if l.height != 0 {
      var n :| n in l.entries && n in l.towers && |l.towers[n]| == l.height + 1;
      assert n in l'.entries && n in l'.towers && |l'.towers[n]| == l.height + 1;
    }
  }

  /** Allocation: with the height h drawn, a node takes 76 + 4 h bytes and 7 more for alignment. When they
      fit, the new node has h + 1 empty slots and the put's own pair; otherwise the put stops. */
  lemma AllocationStep<K(!new), V>(lt: (K, K) -> bool, ss: seq<State<K, V>>, acts: seq<Action<K, V>>, j: nat)
    requires TotalOrder(lt) && Run(lt, ss, acts) && j < |acts| && acts[j].Move?
    requires acts[j].thread in ss[j].threads && ss[j].threads[acts[j].thread].pc.Alloc?
    ensures var before, after := ss[j].list, ss[j + 1].list;
            var w, size := ss[j + 1].threads[acts[j].thread], 83 + 4 * acts[j].choice.height;
            && after.arenaLen == before.arenaLen + size
            && if before.arenaLen + size > before.arenaCap then w.pc == Faulted(ArenaFull)
               else w.pc.Raise? && w.pc.node !in before.towers && before.arenaLen <= w.pc.node < before.arenaLen + 8
                    && w.pc.node in after.towers && w.pc.node in after.entries && w.op.Put?
                    && |after.towers[w.pc.node]| == acts[j].choice.height + 1
                    && (forall k :: 0 <= k < |after.towers[w.pc.node]| ==> after.towers[w.pc.node][k] == NIL)
                    && after.entries[w.pc.node] == Entry(w.op.key, w.op.value)
  {
    hide ListInv, TotalOrder, Regions;
    var links := RunInv(lt, ss, acts, j);
    assert Next(lt, ss[j], acts[j], ss[j + 1]);
    var th := ss[j].threads[acts[j].thread];
    assert ThreadInv(lt, ss[j].list, links, th);
    AllocFresh(ss[j].list.towers, ss[j].list.arenaLen, ss[j].list.arenaCap);
    assert th.op.Put?;
  }

  /** The three assertions inside put never fire and no pointer ever leaves the arena: the only way a
      thread can stop without an answer is an arena that is full. */
  lemma NoFaults<K(!new), V>(lt: (K, K) -> bool, ss: seq<State<K, V>>, acts: seq<Action<K, V>>, j: nat, t: nat)
    requires TotalOrder(lt) && Run(lt, ss, acts) && j < |ss| && t in ss[j].threads && ss[j].threads[t].pc.Faulted?
    ensures ss[j].threads[t].pc.fault == ArenaFull && ss[j].threads[t].op.Put?
  {
    hide ListInv, Run, TotalOrder;
    var links := RunInv(lt, ss, acts, j);
    assert ThreadInv(lt, ss[j].list, links, ss[j].threads[t]);
  }

  /** Where level i of a node lives in the arena. */
  function SlotAddress(n: nat, i: nat): nat { n + TOWER_START + i * SLOT_SIZE }

  /** Nodes are aligned and inside the arena, every tower slot up to the node's height lies inside the
      node's own region, and no two nodes share a byte. */
  lemma ReachableRegions<K(!new), V>(lt: (K, K) -> bool, ss: seq<State<K, V>>, acts: seq<Action<K, V>>, j: nat, a: nat, b: nat)
    requires TotalOrder(lt) && Run(lt, ss, acts) && j < |ss|
    requires a in ss[j].list.towers && b in ss[j].list.towers && a < b
    ensures var l := ss[j].list;
            && 0 < a && a % NODE_ALIGN == 0 && b % NODE_ALIGN == 0
            && 1 <= |l.towers[a]| <= MAX_HEIGHT && 1 <= |l.towers[b]| <= MAX_HEIGHT
            && (forall i :: 0 <= i < |l.towers[a]| ==> SlotAddress(a, i) + SLOT_SIZE <= a + NodeBytes(|l.towers[a]| - 1))
            && SlotAddress(a, |l.towers[a]|) == a + NodeBytes(|l.towers[a]| - 1)
            && a + NodeBytes(|l.towers[a]| - 1) <= b
            && b + NodeBytes(|l.towers[b]| - 1) <= l.arenaCap
  {
    hide ListInv, Run, TotalOrder;
    var links := RunInv(lt, ss, acts, j);
    var l := ss[j].list;
    assert Region(a, |l.towers[a]|, b) && Region(b, |l.towers[b]|, l.arenaCap);
  }
}
