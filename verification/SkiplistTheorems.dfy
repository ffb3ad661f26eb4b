/** What the invariant means for whole runs, said in terms of the pointers alone: every level is a
    finite sorted chain, puts are atomic insert-if-absent, and every concurrent find_near returns
    what a linear scan of level 0 would return at the moment of its last load. */
module SkiplistTheorems {
  import opened Wrappers
  import opened Skiplist
  import opened SkiplistInvariant

  type Towers = map<nat, seq<nat>>

  // ------------------------------------------------------------ chains

  /** s is what following the level-i pointers from `from` visits before it meets a null pointer. */
  ghost predicate IsChain(towers: Towers, from: nat, i: nat, s: seq<nat>)
    decreases |s|
  {
    && from in towers && i < |towers[from]|
    && if s == [] then towers[from][i] == NIL
       else s[0] != NIL && towers[from][i] == s[0] && IsChain(towers, s[0], i, s[1..])
  }

  ghost predicate SortedNodes<K, V>(lt: (K, K) -> bool, e: Entries<K, V>, s: seq<nat>) {
    && (forall q :: q in s ==> q in e)
    && (forall a, b :: 0 <= a < b < |s| ==> KeyLess(lt, e, s[a], s[b]))
  }

  lemma {:induction false} ChainUnique(towers: Towers, from: nat, i: nat, s: seq<nat>, t: seq<nat>)
    requires IsChain(towers, from, i, s) && IsChain(towers, from, i, t)
    ensures s == t
    decreases |s|
  {
    if s != [] && t != [] {
      ChainUnique(towers, s[0], i, s[1..], t[1..]);
      assert s == [s[0]] + s[1..] && t == [t[0]] + t[1..];
    }
  }

  ghost function Beyond<K, V>(lt: (K, K) -> bool, e: Entries<K, V>, links: Links, n: nat, i: nat): set<nat> {
    set q | q in links && Linked(links, q, i) && Precedes(lt, e, n, q)
  }

  lemma {:induction false} ChainFrom<K(!new), V>(lt: (K, K) -> bool, l: List<K, V>, links: Links, n: nat, i: nat) returns (s: seq<nat>)
    requires TotalOrder(lt) && ListInv(lt, l, links) && OnLevel(links, n, i) && i < MAX_HEIGHT
    ensures IsChain(l.towers, n, i, s) && SortedNodes(lt, l.entries, s)
    ensures forall q :: q in s <==> Linked(links, q, i) && Precedes(lt, l.entries, n, q)
    decreases |Beyond(lt, l.entries, links, n, i)|
  {
    var m := l.towers[n][i];
    assert IsSuccessor(lt, l.entries, links, n, i, m);
    if m == NIL {
      s := [];
    } else {
      var rest := Beyond(lt, l.entries, links, m, i);
      assert rest < Beyond(lt, l.entries, links, n, i) by {
        assert m in Beyond(lt, l.entries, links, n, i) && m !in rest;
      }
      SubsetSmaller(rest, Beyond(lt, l.entries, links, n, i));
      var tail := ChainFrom(lt, l, links, m, i);
      s := [m] + tail;
      assert s[1..] == tail;
      forall a, b | 0 <= a < b < |s| ensures KeyLess(lt, l.entries, s[a], s[b]) {
        assert s[b] in tail;
      }
    }
  }

  lemma SubsetSmaller(a: set<nat>, b: set<nat>)
    requires a < b
    ensures |a| < |b|
  {
    var x :| x in b && x !in a;
    assert a <= b - {x};
    SubsetAtMost(a, b - {x});
  }

  lemma {:induction false} SubsetAtMost(a: set<nat>, b: set<nat>)
    requires a <= b
    ensures |a| <= |b|
    decreases |a|
  {
    if a != {} {
      var x :| x in a;
      SubsetAtMost(a - {x}, b - {x});
    }
  }

  /** The nodes of a level, in key order. */
  lemma LevelChain<K(!new), V>(lt: (K, K) -> bool, l: List<K, V>, links: Links, i: nat) returns (s: seq<nat>)
    requires TotalOrder(lt) && ListInv(lt, l, links) && i < MAX_HEIGHT
    ensures IsChain(l.towers, HEAD, i, s) && SortedNodes(lt, l.entries, s)
    ensures forall q :: q in s <==> Linked(links, q, i)
  {
    s := ChainFrom(lt, l, links, HEAD, i);
  }

  // ------------------------------------------------------------ find_near

  ghost predicate Accepts<K>(lt: (K, K) -> bool, k: K, key: K, less: bool, allowEqual: bool) {
    (if less then lt(k, key) else lt(key, k)) || (allowEqual && k == key)
  }

  /** The linear scan find_near stands for: from the front for the least acceptable key,
      from the back for the greatest. */
  ghost function Scan<K, V>(lt: (K, K) -> bool, e: Entries<K, V>, s: seq<nat>, key: K, less: bool, allowEqual: bool): nat {
    if s == [] then NIL
    else if less then
      var last := s[|s| - 1];
      if last in e && Accepts(lt, e[last].key, key, less, allowEqual) then last
      else Scan(lt, e, s[..|s| - 1], key, less, allowEqual)
    else
      if s[0] in e && Accepts(lt, e[s[0]].key, key, less, allowEqual) then s[0]
      else Scan(lt, e, s[1..], key, less, allowEqual)
  }

  /** r is the acceptable published node nearest to the key, NIL when none is acceptable. */
  ghost predicate NearAnswer<K, V>(lt: (K, K) -> bool, e: Entries<K, V>, nodes: set<nat>, key: K, less: bool, allowEqual: bool, r: nat) {
    && (r != NIL ==> r in nodes && r in e && Accepts(lt, e[r].key, key, less, allowEqual))
    && (forall q :: q in nodes && q in e && Accepts(lt, e[q].key, key, less, allowEqual) ==>
          r != NIL && (q == r || if less then KeyLess(lt, e, q, r) else KeyLess(lt, e, r, q)))
  }

  ghost function Published(links: Links): set<nat> { set n | n in links && Linked(links, n, 0) }

  ghost function NodeSet(s: seq<nat>): set<nat> { set n | n in s }

  lemma {:induction false} ScanNearest<K(!new), V>(lt: (K, K) -> bool, e: Entries<K, V>, s: seq<nat>, key: K, less: bool, allowEqual: bool)
    requires TotalOrder(lt) && SortedNodes(lt, e, s) && NIL !in s
    ensures NearAnswer(lt, e, NodeSet(s), key, less, allowEqual, Scan(lt, e, s, key, less, allowEqual))
    decreases |s|
  {
    if s != [] {
      var i := if less then |s| - 1 else 0;
      var t := if less then s[..i] else s[1..];
      assert forall q :: q in s <==> q in t || q == s[i];
      assert forall q :: q in t ==> if less then KeyLess(lt, e, q, s[i]) else KeyLess(lt, e, s[i], q);
      if !Accepts(lt, e[s[i]].key, key, less, allowEqual) {
        ScanNearest(lt, e, t, key, less, allowEqual);
      }
    }
  }

  /** Only one node can be nearest, so any way of finding it agrees with the linear scan. */
  lemma ScanIsNearest<K(!new), V>(lt: (K, K) -> bool, e: Entries<K, V>, s: seq<nat>, key: K, less: bool, allowEqual: bool, r: nat)
    requires TotalOrder(lt) && SortedNodes(lt, e, s) && NIL !in s
    requires NearAnswer(lt, e, NodeSet(s), key, less, allowEqual, r)
    ensures r == Scan(lt, e, s, key, less, allowEqual)
  {
    hide Scan;
    ScanNearest(lt, e, s, key, less, allowEqual);
  }

  /** The step that ends a find_near returns the nearest published node of the state it runs in. */
  lemma NearStep<K(!new), V>(lt: (K, K) -> bool, l: List<K, V>, links: Links, key: K, less: bool, allowEqual: bool, pc: Pc<K, V>)
    requires TotalOrder(lt) && ListInv(lt, l, links)
    requires ReadInv(lt, l, links, key, less, allowEqual, pc) && !pc.Done?
    ensures var pc' := StepRead(lt, l, key, less, allowEqual, pc);
            pc'.Done? ==> NearAnswer(lt, l.entries, Published(links), key, less, allowEqual, pc'.result.node)
  {
    var pc' := StepRead(lt, l, key, less, allowEqual, pc);
    if pc'.Done? {
      var c := if pc.Near? then pc.cursor else pc.node;
      var i := if pc.Near? then pc.level else 0;
      assert OnLevel(links, c, i);
      assert IsSuccessor(lt, l.entries, links, c, i, l.towers[c][i]);
      if i > 0 {
        assert Linked(links, l.towers[c][i], 0);
      }
    }
  }

  // ------------------------------------------------------------ inserting into a sorted chain

  lemma {:induction false} SortedUnique<K(!new), V>(lt: (K, K) -> bool, e: Entries<K, V>, s: seq<nat>, t: seq<nat>)
    requires TotalOrder(lt) && SortedNodes(lt, e, s) && SortedNodes(lt, e, t)
    requires forall q :: q in s <==> q in t
    ensures s == t
    decreases |s|
  {
    if s == [] {
      assert forall i :: 0 <= i < |t| ==> t[i] in s;
    } else {
      assert s[0] in t;
      assert t[0] in s;
      assert s[0] == t[0];
      forall q ensures q in s[1..] <==> q in t[1..] {
        assert q in s <==> q == s[0] || q in s[1..];
        assert q in t <==> q == t[0] || q in t[1..];
        if q in s[1..] { assert KeyLess(lt, e, s[0], q); }
        if q in t[1..] { assert KeyLess(lt, e, t[0], q); }
      }
      SortedUnique(lt, e, s[1..], t[1..]);
      assert s == [s[0]] + s[1..] && t == [t[0]] + t[1..];
    }
  }

  /** t is s with x inserted. */
  ghost predicate Inserted(s: seq<nat>, t: seq<nat>, x: nat) {
    exists k :: 0 <= k <= |s| && t == s[..k] + [x] + s[k..]
  }

  lemma InsertSorted<K(!new), V>(lt: (K, K) -> bool, e: Entries<K, V>, s: seq<nat>, t: seq<nat>, x: nat)
    requires TotalOrder(lt) && SortedNodes(lt, e, s) && SortedNodes(lt, e, t)
    requires x !in s && forall q :: q in t <==> q in s || q == x
    ensures Inserted(s, t, x)
  {
    assert x in t;
    var k :| 0 <= k < |t| && t[k] == x;
    var u := t[..k] + t[k + 1..];
    forall q ensures q in u <==> q in s {
      assert t == t[..k] + [x] + t[k + 1..];
      if q in t[..k] { assert KeyLess(lt, e, q, x); }
      if q in t[k + 1..] { assert KeyLess(lt, e, x, q); }
    }
    SortedUnique(lt, e, u, s);
    assert t == s[..k] + [x] + s[k..];
  }

  // ------------------------------------------------------------ one step, seen from level 0

  ghost predicate LevelZero<K(!new), V>(l: List<K, V>, s: seq<nat>) { IsChain(l.towers, HEAD, 0, s) }

  /** A step leaves level 0 alone, or inserts the stepping put's pair under a key that was absent. */
  ghost predicate AtomicEffect<K, V>(th: Thread<K, V>, l: List<K, V>, s: seq<nat>, l': List<K, V>, s': seq<nat>) {
    || s' == s
    || (th.op.Put? && exists x :: x in l'.entries && l'.entries[x] == Entry(th.op.key, th.op.value)
                                  && Inserted(s, s', x)
                                  && forall q :: q in s && q in l.entries ==> l.entries[q].key != th.op.key)
  }

  /** The answer a finished operation gave, measured against level 0 as it is now. */
  ghost predicate AnswerOk<K, V>(lt: (K, K) -> bool, th: Thread<K, V>, l: List<K, V>, s: seq<nat>) {
    th.pc.Done? ==>
      match th.op
      case Put(key, value) =>
        && th.pc.result.Returned?
        && (exists n :: n in s && n in l.entries && l.entries[n].key == key
             && th.pc.result.rejected == if l.entries[n].value == value then None else Some(Entry(key, value)))
      case Find(key, less, allowEqual) =>
        th.pc.result == Found(Scan(lt, l.entries, s, key, less, allowEqual))
  }

  lemma StepAtomic<K(!new), V>(lt: (K, K) -> bool, st: State<K, V>, a: Action<K, V>, st': State<K, V>, links: Links, s: seq<nat>)
    returns (links': Links, s': seq<nat>)
    requires TotalOrder(lt) && Inv(lt, st, links) && Next(lt, st, a, st')
    requires LevelZero(st.list, s)
    ensures Inv(lt, st', links') && LevelZero(st'.list, s') && Grows(st.list, links, st'.list, links')
    ensures forall q :: q in s ==> q in s' && q in st.list.entries && q in st'.list.entries && st'.list.entries[q] == st.list.entries[q]
    ensures a.Invoke? ==> s' == s
    ensures a.Move? ==> AtomicEffect(st.threads[a.thread], st.list, s, st'.list, s')
                        && AnswerOk(lt, st'.threads[a.thread], st'.list, s')
  {
    hide StepThread, Regions, Chained, IsChain;
    links' := NextKeeps(lt, st, a, st', links);
    var s0 := LevelChain(lt, st.list, links, 0);
    ChainUnique(st.list.towers, HEAD, 0, s, s0);
    s' := LevelChain(lt, st'.list, links', 0);
    SortedGrows(lt, st.list.entries, st'.list.entries, s);
    if a.Invoke? {
      SortedUnique(lt, st'.list.entries, s, s');
    } else {
      var th := st.threads[a.thread];
      assert ThreadInv(lt, st.list, links, th);
      if forall n :: Linked(links', n, 0) <==> Linked(links, n, 0) {
        SortedUnique(lt, st'.list.entries, s, s');
      } else {
        var x := th.pc.node;
        assert Linked(links', x, 0);
        InsertSorted(lt, st'.list.entries, s, s', x);
        InsertedKeyNew(lt, st, st', links, links', th, s, s', x);
      }
      Answered(lt, st, a, st', links, links', s');
    }
  }

  lemma SortedGrows<K, V>(lt: (K, K) -> bool, e: Entries<K, V>, e': Entries<K, V>, s: seq<nat>)
    requires SortedNodes(lt, e, s) && forall n :: n in e ==> n in e' && e'[n] == e[n]
    ensures SortedNodes(lt, e', s)
  {}

  lemma InsertedKeyNew<K(!new), V>(lt: (K, K) -> bool, st: State<K, V>, st': State<K, V>, links: Links, links': Links,
                                   th: Thread<K, V>, s: seq<nat>, s': seq<nat>, x: nat)
    requires ListInv(lt, st.list, links) && ListInv(lt, st'.list, links') && Grows(st.list, links, st'.list, links')
    requires ThreadInv(lt, st.list, links, th) && th.pc.Swap? && th.pc.node == x
    requires (forall q :: q in s <==> Linked(links, q, 0)) && !Linked(links, x, 0) && Linked(links', x, 0) && Inserted(s, s', x)
    ensures AtomicEffect(th, st.list, s, st'.list, s')
  {
    hide Chained, Inserted;
    forall q | q in s && q in st.list.entries ensures st.list.entries[q].key != th.op.key {
      assert Linked(links', q, 0);
    }
  }

  lemma AnsweredRead<K(!new), V>(lt: (K, K) -> bool, l: List<K, V>, links: Links, th: Thread<K, V>, c: Choice, s: seq<nat>)
    requires TotalOrder(lt) && ListInv(lt, l, links) && c.height < MAX_HEIGHT
    requires ThreadInv(lt, l, links, th) && th.op.Find? && !th.pc.Done?
    requires SortedNodes(lt, l.entries, s) && forall q :: q in s <==> Linked(links, q, 0)
    ensures var (l', th') := StepThread(lt, l, th, c);
            l' == l && th'.op == th.op && AnswerOk(lt, th', l, s)
  {
    if !th.pc.Start? {
      NearStep(lt, l, links, th.op.key, th.op.less, th.op.allowEqual, th.pc);
      hide Chained, KeysDistinct;
      var th' := StepThread(lt, l, th, c).1;
      if th'.pc.Done? {
        ReadStepKeeps(lt, l, links, th.op.key, th.op.less, th.op.allowEqual, th.pc);
        assert NodeSet(s) == Published(links);
        ScanIsNearest(lt, l.entries, s, th.op.key, th.op.less, th.op.allowEqual, th'.pc.result.node);
      }
    }
  }

  lemma Answered<K(!new), V>(lt: (K, K) -> bool, st: State<K, V>, a: Action<K, V>, st': State<K, V>, links: Links, links': Links, s': seq<nat>)
    requires TotalOrder(lt) && Inv(lt, st, links) && Next(lt, st, a, st') && a.Move?
    requires Inv(lt, st', links') && LevelZeroEffect(links, links', st.threads[a.thread].pc)
    requires SortedNodes(lt, st'.list.entries, s') && forall q :: q in s' <==> Linked(links', q, 0)
    ensures AnswerOk(lt, st'.threads[a.thread], st'.list, s')
  {
    hide ListInv, Regions, TotalOrder, StepThread, SortedNodes;
    var th, th' := st.threads[a.thread], st'.threads[a.thread];
    assert ThreadInv(lt, st'.list, links', th');
    OpKept(lt, st.list, th, a.choice);
    if th.op.Find? {
      assert ThreadInv(lt, st.list, links, th);
      assert !th.pc.Swap?;
      assert forall q :: q in s' <==> Linked(links, q, 0);
      AnsweredRead(lt, st.list, links, th, a.choice, s');
    } else if th'.pc.Done? {
      var n :| PutAnswer(st'.list, links', th.op.key, th.op.value, th'.pc.result.rejected, n);
      assert n in s';
    }
  }

  lemma OpKept<K, V>(lt: (K, K) -> bool, l: List<K, V>, th: Thread<K, V>, c: Choice)
    requires c.height < MAX_HEIGHT
    ensures var (l', th') := StepThread(lt, l, th, c);
            th'.op == th.op && (th.op.Find? ==> l' == l)
  {}
}
