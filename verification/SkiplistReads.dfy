/** The reading loops of skiplist/src/list.rs run to completion on one list state, which may hold
    nodes that other threads have linked at some of their levels only. */
module SkiplistReads {
  import opened Skiplist
  import opened SkiplistInvariant
  import opened SkiplistTheorems
  import opened SkiplistRuns

  /** A list some run can produce is sound. */
  ghost predicate Sound<K(!new), V>(lt: (K, K) -> bool, l: List<K, V>) {
    TotalOrder(lt) && exists links :: ListInv(lt, l, links)
  }

  lemma ReachableSound<K(!new), V>(lt: (K, K) -> bool, ss: seq<State<K, V>>, acts: seq<Action<K, V>>, j: nat)
    requires TotalOrder(lt) && Run(lt, ss, acts) && j < |ss|
    ensures Sound(lt, ss[j].list)
  {
    hide ListInv, Run, TotalOrder;
    var links := RunInv(lt, ss, acts, j);
  }

  lemma SoundChain<K(!new), V>(lt: (K, K) -> bool, l: List<K, V>, s: seq<nat>, links: Links)
    requires TotalOrder(lt) && ListInv(lt, l, links) && LevelZero(l, s)
    ensures SortedNodes(lt, l.entries, s) && NIL !in s && HEAD !in s && NodeSet(s) == Published(links)
  {
    hide Chained, KeysDistinct, TotalOrder, SortedNodes, IsChain;
    var t := LevelChain(lt, l, links, 0);
    ChainUnique(l.towers, HEAD, 0, s, t);
    forall q | q in s ensures q in l.entries { assert Linked(links, q, 0); }
  }

  lemma SoundLevelZero<K(!new), V>(lt: (K, K) -> bool, l: List<K, V>) returns (s: seq<nat>)
    requires Sound(lt, l)
    ensures LevelZero(l, s) && SortedNodes(lt, l.entries, s) && NIL !in s && HEAD !in s
  {
    hide ListInv, TotalOrder, SortedNodes;
    var links :| ListInv(lt, l, links);
    s := LevelChain(lt, l, links, 0);
    SoundChain(lt, l, s, links);
  }

  /** `find_near` refines the linear scan in all four modes, and terminates. */
  method FindNear<K(!new), V>(lt: (K, K) -> bool, l: List<K, V>, key: K, less: bool, allowEqual: bool, ghost s: seq<nat>)
    returns (node: nat)
    requires Sound(lt, l) && LevelZero(l, s)
    ensures node == Scan(lt, l.entries, s, key, less, allowEqual)
  {
    hide ListInv, TotalOrder, NearAnswer, StepRead, LevelZero, SortedNodes, Scan, Beyond;
    ghost var links :| ListInv(lt, l, links);
    var pc: Pc<K, V> := Near(HEAD, l.height);
    while pc.Near?
      invariant ReadInv(lt, l, links, key, less, allowEqual, pc)
      invariant pc.Near? || pc.Follow? || pc.Done?
      invariant pc.Done? ==> NearAnswer(lt, l.entries, Published(links), key, less, allowEqual, pc.result.node)
      decreases pc.Near?, if pc.Near? then pc.level else 0,
                if pc.Near? then |Beyond(lt, l.entries, links, pc.cursor, pc.level)| else 0
    {
      ReadStepKeeps(lt, l, links, key, less, allowEqual, pc);
      NearStep(lt, l, links, key, less, allowEqual, pc);
      NearAdvances(lt, l, links, key, less, allowEqual, pc);
      pc := StepRead(lt, l, key, less, allowEqual, pc);
    }
    if pc.Follow? {
      ReadStepKeeps(lt, l, links, key, less, allowEqual, pc);
      NearStep(lt, l, links, key, less, allowEqual, pc);
      pc := StepRead(lt, l, key, less, allowEqual, pc);
    }
    node := pc.result.node;
    SoundChain(lt, l, s, links);
    ScanIsNearest(lt, l.entries, s, key, less, allowEqual, node);
  }

  /** A turn of the loop that stays on its level moves to a node with fewer nodes ahead of it. */
  lemma NearAdvances<K(!new), V>(lt: (K, K) -> bool, l: List<K, V>, links: Links, key: K, less: bool, allowEqual: bool, pc: Pc<K, V>)
    requires TotalOrder(lt) && ListInv(lt, l, links)
    requires pc.Near? && ReadInv(lt, l, links, key, less, allowEqual, pc)
    ensures var pc' := StepRead(lt, l, key, less, allowEqual, pc);
            pc'.Near? && pc'.level == pc.level ==>
              |Beyond(lt, l.entries, links, pc'.cursor, pc'.level)| < |Beyond(lt, l.entries, links, pc.cursor, pc.level)|
    ensures var pc' := StepRead(lt, l, key, less, allowEqual, pc); pc'.Near? ==> pc'.level <= pc.level
  {
    var pc' := StepRead(lt, l, key, less, allowEqual, pc);
    assert OnLevel(links, pc.cursor, pc.level);
    if pc'.Near? && pc'.level == pc.level {
      BeyondShrinks(lt, l, links, pc.cursor, pc.level);
    }
  }

  lemma BeyondShrinks<K(!new), V>(lt: (K, K) -> bool, l: List<K, V>, links: Links, n: nat, i: nat)
    requires TotalOrder(lt) && ListInv(lt, l, links) && i < MAX_HEIGHT && OnLevel(links, n, i)
    requires n in l.towers && i < |l.towers[n]| && l.towers[n][i] != NIL
    ensures |Beyond(lt, l.entries, links, l.towers[n][i], i)| < |Beyond(lt, l.entries, links, n, i)|
  {
    var m := l.towers[n][i];
    assert IsSuccessor(lt, l.entries, links, n, i, m);
    assert Beyond(lt, l.entries, links, m, i) < Beyond(lt, l.entries, links, n, i) by {
      assert m in Beyond(lt, l.entries, links, n, i) && m !in Beyond(lt, l.entries, links, m, i);
    }
    SubsetSmaller(Beyond(lt, l.entries, links, m, i), Beyond(lt, l.entries, links, n, i));
  }

  /** `find_last`: descending the levels ends on the last node of level 0. */
  method FindLast<K(!new), V>(lt: (K, K) -> bool, l: List<K, V>, ghost s: seq<nat>) returns (node: nat)
    requires Sound(lt, l) && LevelZero(l, s)
    ensures node == if s == [] then NIL else s[|s| - 1]
  {
    ghost var links :| ListInv(lt, l, links);
    var cursor: nat, level: nat := HEAD, l.height;
    while true
      invariant level <= l.height && OnLevel(links, cursor, level)
      decreases level, |Beyond(lt, l.entries, links, cursor, level)|
    {
      assert OnLevel(links, cursor, level);
      var next := Load(l, cursor, level);
      assert IsSuccessor(lt, l.entries, links, cursor, level, next);
      if next != NIL {
        BeyondShrinks(lt, l, links, cursor, level);
        cursor := next;
      } else if level == 0 {
        break;
      } else {
        level := level - 1;
      }
    }
    SoundChain(lt, l, s, links);
    LastNode(lt, l, links, s, cursor);
    node := CursorOrNil(cursor);
  }

  lemma LastNode<K(!new), V>(lt: (K, K) -> bool, l: List<K, V>, links: Links, s: seq<nat>, cursor: nat)
    requires TotalOrder(lt) && SortedNodes(lt, l.entries, s) && NodeSet(s) == Published(links) && HEAD !in s
    requires OnLevel(links, cursor, 0) && IsSuccessor(lt, l.entries, links, cursor, 0, NIL)
    ensures CursorOrNil(cursor) == if s == [] then NIL else s[|s| - 1]
  {
    if s != [] {
      var last := s[|s| - 1];
      assert last in NodeSet(s);
      assert Linked(links, last, 0);
      if cursor != HEAD {
        assert cursor in Published(links);
        assert cursor in s;
      }
    } else {
      assert cursor !in Published(links);
    }
  }

  /** `len` counts the nodes of level 0. */
  method Len<K(!new), V>(lt: (K, K) -> bool, l: List<K, V>, ghost s: seq<nat>) returns (count: nat)
    requires Sound(lt, l) && LevelZero(l, s)
    ensures count == |s|
  {
    var node := HEAD;
    count := 0;
    ghost var rest := s;
    while Load(l, node, 0) != NIL
      invariant IsChain(l.towers, node, 0, rest) && count + |rest| == |s|
      decreases |rest|
    {
      node := Load(l, node, 0);
      count := count + 1;
      rest := rest[1..];
    }
  }

  /** IterRef: on a quiescent list `prev` undoes `next`, and `next` undoes `prev`. */
  lemma {:induction false} PrevUndoesNext<K(!new), V>(lt: (K, K) -> bool, l: List<K, V>, s: seq<nat>, k: nat)
    requires Sound(lt, l) && LevelZero(l, s) && k + 1 < |s|
    requires s[k] in l.towers && 0 < |l.towers[s[k]]| && s[k + 1] in l.entries
    ensures Load(l, s[k], 0) == s[k + 1]
    ensures Scan(lt, l.entries, s, l.entries[s[k + 1]].key, true, false) == s[k]
  {
    hide ListInv;
    var t := SoundLevelZero(lt, l);
    ChainUnique(l.towers, HEAD, 0, s, t);
    ChainStep(l.towers, HEAD, s, k);
    ScanIsNearest(lt, l.entries, s, l.entries[s[k + 1]].key, true, false, s[k]);
  }

  lemma {:induction false} ChainStep(towers: Towers, from: nat, s: seq<nat>, k: nat)
    requires IsChain(towers, from, 0, s) && k + 1 < |s|
    ensures s[k] in towers && 0 < |towers[s[k]]| && towers[s[k]][0] == s[k + 1]
    decreases k
  {
    if k > 0 { ChainStep(towers, s[0], s[1..], k - 1); }
  }
}
