/** What every step of the skiplist keeps. `links[n]` counts the levels at which node n has
    been published; towers are linked bottom-up, so n is on level i exactly when i < links[n]. */
module SkiplistInvariant {
  import opened Wrappers
  import opened Skiplist

  type Links = map<nat, nat>
  type Entries<K, V> = map<nat, Entry<K, V>>

  ghost predicate TotalOrder<K(!new)>(lt: (K, K) -> bool) {
    && (forall a :: !lt(a, a))
    && (forall a, b, c {:trigger lt(a, b), lt(b, c)} :: lt(a, b) && lt(b, c) ==> lt(a, c))
    && (forall a, b {:trigger lt(a, b)} :: lt(a, b) || a == b || lt(b, a))
  }

  ghost predicate Linked(links: Links, n: nat, i: nat) { n in links && i < links[n] }

  ghost predicate OnLevel(links: Links, n: nat, i: nat) { n == HEAD || Linked(links, n, i) }

  ghost predicate KeyLess<K, V>(lt: (K, K) -> bool, e: Entries<K, V>, n: nat, m: nat) {
    n in e && m in e && lt(e[n].key, e[m].key)
  }

  /** n precedes every node that has a larger key; HEAD precedes all. */
  ghost predicate Precedes<K, V>(lt: (K, K) -> bool, e: Entries<K, V>, n: nat, m: nat) {
    n == HEAD || KeyLess(lt, e, n, m)
  }

  /** m is the least node of level i above n, or NIL when there is none. */
  ghost predicate IsSuccessor<K, V>(lt: (K, K) -> bool, e: Entries<K, V>, links: Links, n: nat, i: nat, m: nat) {
    && (m != NIL ==> Linked(links, m, i) && Precedes(lt, e, n, m))
    && (forall q {:trigger Linked(links, q, i)} :: Linked(links, q, i) && Precedes(lt, e, n, q) ==>
          m != NIL && (q == m || KeyLess(lt, e, m, q)))
  }

  ghost predicate Shape<K, V>(towers: map<nat, seq<nat>>, e: Entries<K, V>, height: nat, links: Links) {
    && HEAD in towers && |towers[HEAD]| == MAX_HEIGHT
    && towers.Keys == e.Keys + {HEAD}
    && links.Keys == e.Keys
    && HEAD !in e && NIL !in e
    && height < MAX_HEIGHT
    && (forall n :: n in e ==> 1 <= |towers[n]| <= MAX_HEIGHT)
    && (forall n :: n in links ==> links[n] <= |towers[n]| && links[n] <= height + 1)
  }

  ghost predicate KeysDistinct<K, V>(e: Entries<K, V>, links: Links) {
    forall a, b :: Linked(links, a, 0) && Linked(links, b, 0) && a in e && b in e ==>
      e[a].key == e[b].key ==> a == b
  }

  ghost predicate Chained<K, V>(lt: (K, K) -> bool, towers: map<nat, seq<nat>>, e: Entries<K, V>, links: Links) {
    forall n: nat, i: nat {:trigger OnLevel(links, n, i)} :: OnLevel(links, n, i) && i < MAX_HEIGHT ==>
      n in towers && i < |towers[n]| && IsSuccessor(lt, e, links, n, i, towers[n][i])
  }

  /** Regions handed out by the arena: aligned, inside the used part, pairwise disjoint. */
  ghost predicate Region(n: nat, slots: nat, limit: nat) {
    1 <= slots <= MAX_HEIGHT && 0 < n && n % NODE_ALIGN == 0 && n + NodeBytes(slots - 1) <= limit
  }

  ghost predicate Regions(towers: map<nat, seq<nat>>, arenaLen: nat, arenaCap: nat) {
    && HEAD in towers
    && (forall n :: n in towers ==> Region(n, |towers[n]|, arenaLen) && Region(n, |towers[n]|, arenaCap))
    && (forall a, b :: a in towers && b in towers && a < b ==> Region(a, |towers[a]|, b))
  }

  ghost predicate ListInv<K(!new), V>(lt: (K, K) -> bool, l: List<K, V>, links: Links) {
    Shape(l.towers, l.entries, l.height, links) && KeysDistinct(l.entries, links) && Chained(lt, l.towers, l.entries, links)
  }

  // ------------------------------------------------------------ threads

  ghost predicate Below<K, V>(lt: (K, K) -> bool, e: Entries<K, V>, links: Links, n: nat, i: nat, k: K) {
    n == HEAD || (Linked(links, n, i) && n in e && lt(e[n].key, k))
  }

  ghost predicate Above<K, V>(lt: (K, K) -> bool, e: Entries<K, V>, links: Links, n: nat, i: nat, k: K) {
    n == NIL || (Linked(links, n, i) && n in e && lt(k, e[n].key))
  }

  ghost predicate SplicesOk<K, V>(lt: (K, K) -> bool, e: Entries<K, V>, links: Links, k: K, prev: seq<nat>, next: seq<nat>) {
    && |prev| == MAX_HEIGHT + 1 && |next| == MAX_HEIGHT + 1
    && forall j :: 0 <= j < |prev| && prev[j] != NIL ==>
         Below(lt, e, links, prev[j], j, k) && Above(lt, e, links, next[j], j, k)
  }

  /** The splice found by a put: usable at every level that was searched, and at 0 and 1 for sure. */
  ghost predicate Spliced<K, V>(lt: (K, K) -> bool, e: Entries<K, V>, links: Links, k: K, prev: seq<nat>, next: seq<nat>) {
    SplicesOk(lt, e, links, k, prev, next) && prev[0] != NIL && prev[1] != NIL
  }

  /** Node n carries this put's entry and is published below `level` only. */
  ghost predicate Holds<K, V>(l: List<K, V>, links: Links, n: nat, key: K, value: V, level: nat) {
    && n in l.entries && n in l.towers && n in links
    && l.entries[n] == Entry(key, value)
    && links[n] == level < |l.towers[n]|
  }

  ghost predicate Linking<K, V>(lt: (K, K) -> bool, l: List<K, V>, links: Links, key: K, value: V,
                                node: nat, level: nat, prev: seq<nat>, next: seq<nat>) {
    && Holds(l, links, node, key, value, level) && level < |l.towers[node]| <= l.height + 1 <= MAX_HEIGHT
    && Spliced(lt, l.entries, links, key, prev, next)
  }

  /** A put returns None when the stored value for its key is its own, and its own pair otherwise. */
  ghost predicate PutAnswer<K, V>(l: List<K, V>, links: Links, key: K, value: V, rejected: Option<Entry<K, V>>, n: nat) {
    && Linked(links, n, 0) && n in l.entries && l.entries[n].key == key
    && rejected == if l.entries[n].value == value then None else Some(Entry(key, value))
  }

  ghost predicate PutInv<K, V>(lt: (K, K) -> bool, l: List<K, V>, links: Links, key: K, value: V, pc: Pc<K, V>) {
    match pc
    case Start => true
    case Search(h, level, before, prev, next) =>
      && level <= h <= l.height < MAX_HEIGHT
      && Below(lt, l.entries, links, before, level, key)
      && SplicesOk(lt, l.entries, links, key, prev, next)
      && (forall j :: level < j <= h + 1 ==> prev[j] != NIL)
    case Alloc(h, prev, next) => h <= l.height && Spliced(lt, l.entries, links, key, prev, next)
    case Raise(node, h, prev, next) =>
      Holds(l, links, node, key, value, 0) && h <= l.height && Spliced(lt, l.entries, links, key, prev, next)
    case Link(node, level, prev, next) => Linking(lt, l, links, key, value, node, level, prev, next)
    case Swap(node, level, prev, next) =>
      && Linking(lt, l, links, key, value, node, level, prev, next)
      && prev[level] != NIL && l.towers[node][level] == next[level]
    case Splice(node, level, before, prev, next, fromHead) =>
      && Linking(lt, l, links, key, value, node, level, prev, next)
      && Below(lt, l.entries, links, before, level, key) && (fromHead ==> level > 1)
    case Done(r) => r.Returned? && exists n :: PutAnswer(l, links, key, value, r.rejected, n)
    case Faulted(f) => f == ArenaFull
    case _ => false
  }

  ghost predicate ReadInv<K, V>(lt: (K, K) -> bool, l: List<K, V>, links: Links, key: K, less: bool, allowEqual: bool, pc: Pc<K, V>) {
    match pc
    case Near(cursor, level) => level <= l.height && Below(lt, l.entries, links, cursor, level, key)
    case Follow(n) => !less && !allowEqual && Linked(links, n, 0) && n in l.entries && l.entries[n].key == key
    case Done(r) => r.Found? && (r.node == NIL || Linked(links, r.node, 0))
    case Start => true
    case _ => false
  }

  ghost predicate ThreadInv<K, V>(lt: (K, K) -> bool, l: List<K, V>, links: Links, th: Thread<K, V>) {
    match th.op
    case Put(key, value) => PutInv(lt, l, links, key, value, th.pc)
    case Find(key, less, allowEqual) => ReadInv(lt, l, links, key, less, allowEqual, th.pc)
  }

  /** The node a put has allocated and is still linking. */
  ghost function Owned<K, V>(pc: Pc<K, V>): set<nat> {
    match pc
    case Raise(node, _, _, _) => {node}
    case Link(node, _, _, _) => {node}
    case Swap(node, _, _, _) => {node}
    case Splice(node, _, _, _, _, _) => {node}
    case _ => {}
  }

  /** n is linked on all its levels or on none. */
  ghost predicate Whole<K, V>(l: List<K, V>, links: Links, n: nat) {
    n in links && n in l.towers && (links[n] == 0 || links[n] == |l.towers[n]|)
  }

  /** A node linked on some of its levels only has a put that is still working on it. */
  ghost predicate Attended<K, V>(s: State<K, V>, links: Links, n: nat) {
    Whole(s.list, links, n) || exists t :: t in s.threads && n in Owned(s.threads[t].pc)
  }

  ghost predicate AllAttended<K, V>(s: State<K, V>, links: Links) {
    forall n :: n in links ==> Attended(s, links, n)
  }

  ghost predicate Inv<K(!new), V>(lt: (K, K) -> bool, s: State<K, V>, links: Links) {
    && AllAttended(s, links)
    && ListInv(lt, s.list, links) && Regions(s.list.towers, s.list.arenaLen, s.list.arenaCap)
    && (forall t :: t in s.threads ==> ThreadInv(lt, s.list, links, s.threads[t]))
    && (forall t, u :: t in s.threads && u in s.threads && t != u ==> Owned(s.threads[t].pc) !! Owned(s.threads[u].pc))
  }

  // ------------------------------------------------------------ growth

  /** The list only grows: entries are immutable, published levels and the height never shrink,
      and towers outside `mine` change only at published slots. */
  ghost predicate Grows<K, V>(l: List<K, V>, links: Links, l': List<K, V>, links': Links) {
    && (forall n :: n in l.entries ==> n in l'.entries && l'.entries[n] == l.entries[n])
    && (forall n :: n in links ==> n in links' && links[n] <= links'[n])
    && l.height <= l'.height
  }

  /** Nodes of other threads: their tower and their published count are untouched. */
  ghost predicate Untouched<K, V>(l: List<K, V>, links: Links, l': List<K, V>, links': Links, n: nat) {
    n in l.towers && n in links ==>
      n in l'.towers && n in links' && links'[n] == links[n] && |l'.towers[n]| == |l.towers[n]|
      && forall i :: links[n] <= i < |l.towers[n]| ==> l'.towers[n][i] == l.towers[n][i]
  }

  lemma GrowsSplices<K, V>(lt: (K, K) -> bool, l: List<K, V>, links: Links, l': List<K, V>, links': Links,
                           k: K, prev: seq<nat>, next: seq<nat>)
    requires Grows(l, links, l', links')
    requires SplicesOk(lt, l.entries, links, k, prev, next)
    ensures SplicesOk(lt, l'.entries, links', k, prev, next)
  {}

  lemma GrowsThread<K, V>(lt: (K, K) -> bool, l: List<K, V>, links: Links, l': List<K, V>, links': Links, th: Thread<K, V>)
    requires Grows(l, links, l', links') && l'.height < MAX_HEIGHT
    requires ThreadInv(lt, l, links, th)
    requires forall n :: n in Owned(th.pc) ==> Untouched(l, links, l', links', n)
    ensures ThreadInv(lt, l', links', th)
  {
    if th.op.Put? {
      if th.pc.Search? || th.pc.Alloc? || th.pc.Raise? || th.pc.Link? || th.pc.Swap? || th.pc.Splice? {
        GrowsSplices(lt, l, links, l', links', th.op.key, th.pc.prev, th.pc.next);
      }
      if th.pc.Raise? || th.pc.Link? || th.pc.Swap? || th.pc.Splice? {
        assert Untouched(l, links, l', links', th.pc.node);
      }
      if th.pc.Done? {
        var n :| PutAnswer(l, links, th.op.key, th.op.value, th.pc.result.rejected, n);
        assert PutAnswer(l', links', th.op.key, th.op.value, th.pc.result.rejected, n);
      }
    }
  }

  // ------------------------------------------------------------ steps

  /** A probe from below the key never leaves allocated memory, and lands where the order says. */
  lemma ProbeOk<K(!new), V>(lt: (K, K) -> bool, l: List<K, V>, links: Links, key: K, before: nat, level: nat)
    requires TotalOrder(lt) && ListInv(lt, l, links)
    requires level < MAX_HEIGHT && Below(lt, l.entries, links, before, level, key)
    ensures match SpliceProbe(lt, l, key, before, level)
            case Bad => false
            case Forward(n) => Below(lt, l.entries, links, n, level, key)
            case Between(p, n) => p == before && Above(lt, l.entries, links, n, level, key)
            case Same(n) => Linked(links, n, level) && n in l.entries && l.entries[n].key == key
  {
    assert OnLevel(links, before, level);
  }

  /** Writing an unpublished slot of a node changes no level. */
  lemma StoreKeeps<K(!new), V>(lt: (K, K) -> bool, l: List<K, V>, links: Links, node: nat, i: nat, m: nat)
    requires ListInv(lt, l, links)
    requires node in l.entries && links[node] == i < |l.towers[node]|
    ensures ListInv(lt, Store(l, node, i, m), links)
  {
    var l' := Store(l, node, i, m);
    forall n: nat, j: nat | OnLevel(links, n, j) && j < MAX_HEIGHT
      ensures HasSlot(l', n, j) && IsSuccessor(lt, l'.entries, links, n, j, Load(l', n, j))
    {
      assert IsSuccessor(lt, l.entries, links, n, j, Load(l, n, j));
    }
  }

  /** The situation in which a put's CAS at level i succeeds. */
  ghost predicate CasReady<K(!new), V>(lt: (K, K) -> bool, l: List<K, V>, links: Links, node: nat, i: nat, p: nat) {
    && TotalOrder(lt) && ListInv(lt, l, links)
    && node in l.entries && links[node] == i < |l.towers[node]| <= l.height + 1
    && Below(lt, l.entries, links, p, i, l.entries[node].key)
    && HasSlot(l, p, i) && Above(lt, l.entries, links, Load(l, p, i), i, l.entries[node].key)
    && l.towers[node][i] == Load(l, p, i)
  }

  /** Every published node of the level is at or below p, or at or above p's successor. */
  lemma SplitAtCas<K(!new), V>(lt: (K, K) -> bool, l: List<K, V>, links: Links, node: nat, i: nat, p: nat, q: nat)
    requires CasReady(lt, l, links, node, i, p) && Linked(links, q, i)
    ensures q != node
    ensures var m := Load(l, p, i);
            || (p != HEAD && (q == p || KeyLess(lt, l.entries, q, p)) && KeyLess(lt, l.entries, q, node))
            || (m != NIL && (q == m || KeyLess(lt, l.entries, m, q)) && KeyLess(lt, l.entries, node, q))
  {
    assert OnLevel(links, p, i);
    assert IsSuccessor(lt, l.entries, links, p, i, Load(l, p, i));
    assert Linked(links, q, 0);
    if p != HEAD { assert Linked(links, p, 0); }
  }

  lemma SwapSuccessor<K(!new), V>(lt: (K, K) -> bool, l: List<K, V>, links: Links, node: nat, i: nat, p: nat, n: nat)
    requires CasReady(lt, l, links, node, i, p) && (n == node || OnLevel(links, n, i))
    ensures var l' := Store(l, p, i, node);
            HasSlot(l', n, i) && IsSuccessor(lt, l'.entries, links[node := i + 1], n, i, Load(l', n, i))
  {
    var l', links' := Store(l, p, i, node), links[node := i + 1];
    assert OnLevel(links, p, i);
    if n != node {
      assert IsSuccessor(lt, l.entries, links, n, i, Load(l, n, i));
      if n != HEAD { SplitAtCas(lt, l, links, node, i, p, n); }
    }
    var m' := Load(l', n, i);
    if m' != NIL && m' != node { SplitAtCas(lt, l, links, node, i, p, m'); }
    forall q | Linked(links', q, i) && Precedes(lt, l'.entries, n, q)
      ensures m' != NIL && (q == m' || KeyLess(lt, l'.entries, m', q))
    {
      if q != node {
        assert Linked(links, q, i);
        SplitAtCas(lt, l, links, node, i, p, q);
      }
    }
  }

  lemma SwapChained<K(!new), V>(lt: (K, K) -> bool, l: List<K, V>, links: Links, node: nat, i: nat, p: nat)
    requires CasReady(lt, l, links, node, i, p)
    ensures Chained(lt, Store(l, p, i, node).towers, l.entries, links[node := i + 1])
  {
    hide KeysDistinct, TotalOrder;
    var l', links' := Store(l, p, i, node), links[node := i + 1];
    forall n: nat, j: nat | OnLevel(links', n, j) && j < MAX_HEIGHT
      ensures HasSlot(l', n, j) && IsSuccessor(lt, l'.entries, links', n, j, Load(l', n, j))
    {
      if j == i {
        SwapSuccessor(lt, l, links, node, i, p, n);
      } else {
        assert OnLevel(links, n, j);
        assert IsSuccessor(lt, l.entries, links, n, j, Load(l, n, j));
        assert forall q :: Linked(links', q, j) <==> Linked(links, q, j);
      }
    }
  }

  lemma SwapDistinct<K(!new), V>(lt: (K, K) -> bool, l: List<K, V>, links: Links, node: nat, i: nat, p: nat)
    requires CasReady(lt, l, links, node, i, p)
    ensures KeysDistinct(l.entries, links[node := i + 1])
  {
    hide Chained;
    var links' := links[node := i + 1];
    assert forall n :: Linked(links', n, 0) ==> Linked(links, n, 0) || (n == node && i == 0);
    forall a | i == 0 && Linked(links, a, 0) ensures a != node && l.entries[a].key != l.entries[node].key {
      SplitAtCas(lt, l, links, node, i, p, a);
    }
  }

  /** The heart of the algorithm: a successful CAS publishes the node at level i, between p and its successor. */
  lemma SwapKeeps<K(!new), V>(lt: (K, K) -> bool, l: List<K, V>, links: Links, node: nat, i: nat, p: nat)
    requires CasReady(lt, l, links, node, i, p)
    ensures ListInv(lt, Store(l, p, i, node), links[node := i + 1])
  {
    hide Chained, KeysDistinct, TotalOrder;
    SwapChained(lt, l, links, node, i, p);
    SwapDistinct(lt, l, links, node, i, p);
  }

  // ------------------------------------------------------------ whole steps

  /** What a step of a thread owning `owned` does to the list, seen by everybody else. */
  ghost predicate StepKept<K(!new), V>(lt: (K, K) -> bool, l: List<K, V>, links: Links, l': List<K, V>, links': Links,
                                       owned: set<nat>) {
    && ListInv(lt, l', links') && Grows(l, links, l', links')
    && (forall n {:trigger Untouched(l, links, l', links', n)} :: n in links && n !in owned ==> Untouched(l, links, l', links', n))
  }

  /** Level 0 changes only when a put's CAS publishes its node there. */
  ghost predicate LevelZeroEffect<K, V>(links: Links, links': Links, pc: Pc<K, V>) {
    || (forall n {:trigger Linked(links', n, 0)} :: Linked(links', n, 0) <==> Linked(links, n, 0))
    || (pc.Swap? && pc.level == 0 && !Linked(links, pc.node, 0)
        && forall n {:trigger Linked(links', n, 0)} :: Linked(links', n, 0) <==> Linked(links, n, 0) || n == pc.node)
  }

  /** A step lets go of a node only once it is whole, and new nodes start unlinked. */
  ghost predicate LetGo<K, V>(links: Links, l': List<K, V>, links': Links, owned: set<nat>, owned': set<nat>) {
    && (forall n :: n in owned && n !in owned' ==> Whole(l', links', n))
    && (forall n :: n in links' && n !in links ==> links'[n] == 0 && n in l'.towers)
  }

  lemma AllocFresh(t: map<nat, seq<nat>>, len: nat, cap: nat)
    requires Regions(t, len, cap)
    ensures AlignUp(len) !in t && AlignUp(len) != NIL
  {}

  lemma RegionsFrame(t: map<nat, seq<nat>>, t': map<nat, seq<nat>>, len: nat, cap: nat)
    requires Regions(t, len, cap) && t'.Keys == t.Keys && forall n :: n in t ==> |t'[n]| == |t[n]|
    ensures Regions(t', len, cap)
  {}

  lemma RegionsAlloc(t: map<nat, seq<nat>>, len: nat, cap: nat, slots: nat)
    requires Regions(t, len, cap) && 1 <= slots <= MAX_HEIGHT
    ensures var len' := len + NodeBytes(slots - 1) + (NODE_ALIGN - 1);
            && Regions(t, len', cap)
            && (len' <= cap ==> Regions(t[AlignUp(len) := Zeros(slots)], len', cap))
  {
    var node, t' := AlignUp(len), t[AlignUp(len) := Zeros(slots)];
    assert |Zeros(slots)| == slots;
    forall n | n in t ensures Region(n, |t[n]|, node) && n < node { assert Region(n, |t[n]|, len); }
    assert forall n :: n in t' ==> n in t || n == node;
  }

  /** The bump allocator keeps every region aligned, in bounds and disjoint from the others. */
  lemma RegionsKept<K, V>(lt: (K, K) -> bool, l: List<K, V>, th: Thread<K, V>, c: Choice)
    requires Regions(l.towers, l.arenaLen, l.arenaCap) && c.height < MAX_HEIGHT
    ensures var l' := StepThread(lt, l, th, c).0;
            Regions(l'.towers, l'.arenaLen, l'.arenaCap)
  {
    hide Regions, NodeBytes, AlignUp;
    var l' := StepThread(lt, l, th, c).0;
    if th.op.Put? && th.pc.Alloc? {
      RegionsAlloc(l.towers, l.arenaLen, l.arenaCap, c.height + 1);
    } else {
      RegionsFrame(l.towers, l'.towers, l.arenaLen, l.arenaCap);
    }
  }

  lemma AllocKeeps<K(!new), V>(lt: (K, K) -> bool, l: List<K, V>, links: Links, key: K, value: V, pc: Pc<K, V>, height: nat)
    returns (links': Links)
    requires ListInv(lt, l, links) && Regions(l.towers, l.arenaLen, l.arenaCap)
    requires pc.Alloc? && PutInv(lt, l, links, key, value, pc) && height < MAX_HEIGHT
    ensures var (l', pc') := StepAlloc(l, key, value, pc, height);
            && StepKept(lt, l, links, l', links', {})
            && PutInv(lt, l', links', key, value, pc')
            && (forall n :: n in Owned(pc') ==> n !in l.entries)
            && LetGo(links, l', links', Owned(pc), Owned(pc'))
            && LevelZeroEffect(links, links', pc)
  {
    hide Chained, KeysDistinct, AlignUp, NodeBytes, Regions, Shape, SplicesOk, Whole;
    var (l', pc') := StepAlloc(l, key, value, pc, height);
    AllocFresh(l.towers, l.arenaLen, l.arenaCap);
    if pc'.Raise? {
      links' := links[pc'.node := 0];
      AllocShape(l, links, l', links', pc'.node);
      AllocChained(lt, l, links, l', links', pc'.node);
      GrowsSplices(lt, l, links, l', links', key, pc.prev, pc.next);
    } else {
      links' := links;
    }
  }

  lemma AllocShape<K, V>(l: List<K, V>, links: Links, l': List<K, V>, links': Links, node: nat)
    requires Shape(l.towers, l.entries, l.height, links) && node !in l.towers && node != NIL
    requires l'.towers.Keys == l.towers.Keys + {node} && l'.entries.Keys == l.entries.Keys + {node}
    requires 1 <= |l'.towers[node]| <= MAX_HEIGHT && l'.height == l.height && links' == links[node := 0]
    requires forall n :: n in l.towers ==> l'.towers[n] == l.towers[n]
    ensures Shape(l'.towers, l'.entries, l'.height, links') && node !in l.entries && links.Keys == l.entries.Keys
  {}

  lemma AllocChained<K(!new), V>(lt: (K, K) -> bool, l: List<K, V>, links: Links, l': List<K, V>, links': Links, node: nat)
    requires ListInv(lt, l, links) && Shape(l'.towers, l'.entries, l'.height, links')
    requires node !in l.towers && links' == links[node := 0]
    requires forall n :: n in l.towers ==> n in l'.towers && l'.towers[n] == l.towers[n]
    requires forall n :: n in l.entries ==> n in l'.entries && l'.entries[n] == l.entries[n]
    ensures ListInv(lt, l', links')
  {
    assert forall n, j :: Linked(links', n, j) <==> Linked(links, n, j);
    forall n: nat, j: nat | OnLevel(links', n, j) && j < MAX_HEIGHT
      ensures HasSlot(l', n, j) && IsSuccessor(lt, l'.entries, links', n, j, Load(l', n, j))
    {
      assert OnLevel(links, n, j);
      assert IsSuccessor(lt, l.entries, links, n, j, Load(l, n, j));
      forall q | Linked(links', q, j) && Precedes(lt, l'.entries, n, q)
        ensures Load(l, n, j) != NIL && (q == Load(l, n, j) || KeyLess(lt, l'.entries, Load(l, n, j), q))
      {
        assert Linked(links, q, j);
      }
    }
  }

  lemma LinkKeeps<K(!new), V>(lt: (K, K) -> bool, l: List<K, V>, links: Links, key: K, value: V, pc: Pc<K, V>)
    requires TotalOrder(lt) && ListInv(lt, l, links)
    requires pc.Link? && PutInv(lt, l, links, key, value, pc)
    ensures var (l', pc') := StepLink(l, pc);
            && StepKept(lt, l, links, l', links, Owned(pc))
            && PutInv(lt, l', links, key, value, pc')
            && Owned(pc') == Owned(pc)
  {
    hide Chained, KeysDistinct;
    if pc.prev[pc.level] != NIL {
      StoreKeeps(lt, l, links, pc.node, pc.level, pc.next[pc.level]);
    }
  }

  lemma SwapStepKeeps<K(!new), V>(lt: (K, K) -> bool, l: List<K, V>, links: Links, key: K, value: V, pc: Pc<K, V>)
    returns (links': Links)
    requires TotalOrder(lt) && ListInv(lt, l, links)
    requires pc.Swap? && PutInv(lt, l, links, key, value, pc)
    ensures var (l', pc') := StepSwap(l, pc);
            && StepKept(lt, l, links, l', links', Owned(pc))
            && PutInv(lt, l', links', key, value, pc')
            && Owned(pc') <= Owned(pc)
            && LetGo(links, l', links', Owned(pc), Owned(pc'))
            && LevelZeroEffect(links, links', pc)
  {
    hide KeysDistinct;
    var (l', pc') := StepSwap(l, pc);
    var i, node, p := pc.level, pc.node, pc.prev[pc.level];
    assert OnLevel(links, p, i);
    if Load(l, p, i) == pc.next[i] {
      links' := links[node := i + 1];
      SwapKeeps(lt, l, links, node, i, p);
      GrowsSplices(lt, l, links, l', links', key, pc.prev, pc.next);
      if pc'.Done? {
        assert PutAnswer(l', links', key, value, None, node);
      }
    } else {
      links' := links;
    }
  }

  lemma SearchKeeps<K(!new), V>(lt: (K, K) -> bool, l: List<K, V>, links: Links, key: K, value: V, pc: Pc<K, V>)
    requires TotalOrder(lt) && ListInv(lt, l, links)
    requires pc.Search? && PutInv(lt, l, links, key, value, pc)
    ensures PutInv(lt, l, links, key, value, StepSearch(lt, l, key, value, pc))
    ensures Owned(StepSearch(lt, l, key, value, pc)) == {}
  {
    hide Chained, KeysDistinct;
    ProbeOk(lt, l, links, key, pc.before, pc.level);
    var probe := SpliceProbe(lt, l, key, pc.before, pc.level);
    if probe.Same? {
      assert Linked(links, probe.node, 0);
      assert PutAnswer(l, links, key, value, StepSearch(lt, l, key, value, pc).result.rejected, probe.node);
    }
  }

  /** The retry after a lost CAS: an equal key can only turn up at level 0, before this put has published anything. */
  lemma SpliceKeeps<K(!new), V>(lt: (K, K) -> bool, l: List<K, V>, links: Links, key: K, value: V, pc: Pc<K, V>)
    requires TotalOrder(lt) && ListInv(lt, l, links)
    requires pc.Splice? && PutInv(lt, l, links, key, value, pc)
    ensures PutInv(lt, l, links, key, value, StepSplice(lt, l, key, value, pc))
    ensures Owned(StepSplice(lt, l, key, value, pc)) <= Owned(pc)
    ensures LetGo(links, l, links, Owned(pc), Owned(StepSplice(lt, l, key, value, pc)))
  {
    hide Chained;
    ProbeOk(lt, l, links, key, pc.before, pc.level);
    var probe := SpliceProbe(lt, l, key, pc.before, pc.level);
    if probe.Same? {
      assert Linked(links, probe.node, 0);
      assert pc.level == 0 && !pc.fromHead;
      assert PutAnswer(l, links, key, value, StepSplice(lt, l, key, value, pc).result.rejected, probe.node);
    }
  }

  lemma RaiseKeeps<K(!new), V>(lt: (K, K) -> bool, l: List<K, V>, links: Links, key: K, value: V, pc: Pc<K, V>, spurious: bool)
    requires ListInv(lt, l, links)
    requires pc.Raise? && PutInv(lt, l, links, key, value, pc)
    ensures var (l', pc') := StepRaise(l, pc, spurious);
            && StepKept(lt, l, links, l', links, Owned(pc))
            && PutInv(lt, l', links, key, value, pc')
            && Owned(pc') == Owned(pc)
  {
    hide Chained, KeysDistinct;
  }

  lemma SameKept<K(!new), V>(lt: (K, K) -> bool, l: List<K, V>, links: Links, owned: set<nat>)
    requires ListInv(lt, l, links)
    ensures StepKept(lt, l, links, l, links, owned)
  {
    hide ListInv;
  }

  lemma PutStepKeeps<K(!new), V>(lt: (K, K) -> bool, l: List<K, V>, links: Links, key: K, value: V, pc: Pc<K, V>, c: Choice)
    returns (links': Links)
    requires TotalOrder(lt) && ListInv(lt, l, links) && Regions(l.towers, l.arenaLen, l.arenaCap)
    requires PutInv(lt, l, links, key, value, pc) && c.height < MAX_HEIGHT
    ensures var (l', pc') := StepPut(lt, l, key, value, pc, c);
            && StepKept(lt, l, links, l', links', Owned(pc))
            && PutInv(lt, l', links', key, value, pc')
            && (forall n :: n in Owned(pc') ==> n in Owned(pc) || n !in l.entries)
            && LetGo(links, l', links', Owned(pc), Owned(pc'))
            && LevelZeroEffect(links, links', pc)
  {
    hide ListInv, Regions, TotalOrder, PutInv, StepKept, StepAlloc, StepRaise, StepLink, StepSwap, StepSearch, StepSplice;
    links' := links;
    if pc.Search? {
      SearchKeeps(lt, l, links, key, value, pc);
      SameKept(lt, l, links, Owned(pc));
    } else if pc.Alloc? {
      links' := AllocKeeps(lt, l, links, key, value, pc, c.height);
    } else if pc.Raise? {
      RaiseKeeps(lt, l, links, key, value, pc, c.spurious);
    } else if pc.Link? {
      LinkKeeps(lt, l, links, key, value, pc);
    } else if pc.Swap? {
      links' := SwapStepKeeps(lt, l, links, key, value, pc);
    } else if pc.Splice? {
      SpliceKeeps(lt, l, links, key, value, pc);
      SameKept(lt, l, links, Owned(pc));
    } else {
      SameKept(lt, l, links, Owned(pc));
    }
  }

  lemma ReadStepKeeps<K(!new), V>(lt: (K, K) -> bool, l: List<K, V>, links: Links, key: K, less: bool, allowEqual: bool, pc: Pc<K, V>)
    requires TotalOrder(lt) && ListInv(lt, l, links)
    requires ReadInv(lt, l, links, key, less, allowEqual, pc)
    ensures var pc' := StepRead(lt, l, key, less, allowEqual, pc);
            && ReadInv(lt, l, links, key, less, allowEqual, pc')
            && (!pc.Start? ==> !pc'.Start?)
            && (pc.Follow? ==> pc'.Done?)
  {
    if pc.Near? || pc.Follow? {
      var c, i := if pc.Near? then pc.cursor else pc.node, if pc.Near? then pc.level else 0;
      LoadOk(lt, l, links, c, i);
    }
    hide Chained, KeysDistinct, IsSuccessor;
  }

  /** From a published slot the pointer leads to a published node of the same level, or nowhere. */
  lemma LoadOk<K(!new), V>(lt: (K, K) -> bool, l: List<K, V>, links: Links, n: nat, i: nat)
    requires ListInv(lt, l, links) && OnLevel(links, n, i) && i < MAX_HEIGHT
    ensures HasSlot(l, n, i) && IsSuccessor(lt, l.entries, links, n, i, Load(l, n, i))
    ensures Load(l, n, i) != NIL ==> Linked(links, Load(l, n, i), i) && Load(l, n, i) in l.entries
  {}

  lemma ThreadStepKeeps<K(!new), V>(lt: (K, K) -> bool, l: List<K, V>, links: Links, th: Thread<K, V>, c: Choice)
    returns (links': Links)
    requires TotalOrder(lt) && ListInv(lt, l, links) && Regions(l.towers, l.arenaLen, l.arenaCap)
    requires ThreadInv(lt, l, links, th) && c.height < MAX_HEIGHT
    ensures var (l', th') := StepThread(lt, l, th, c);
            && StepKept(lt, l, links, l', links', Owned(th.pc))
            && ThreadInv(lt, l', links', th')
            && (forall n :: n in Owned(th'.pc) ==> n in Owned(th.pc) || n !in l.entries)
            && LetGo(links, l', links', Owned(th.pc), Owned(th'.pc))
            && LevelZeroEffect(links, links', th.pc)
  {
    links' := links;
    if !th.pc.Start? {
      match th.op
      case Put(key, value) => links' := PutStepKeeps(lt, l, links, key, value, th.pc, c);
      case Find(key, less, allowEqual) => ReadStepKeeps(lt, l, links, key, less, allowEqual, th.pc);
    }
  }

  lemma HeightBound<K(!new), V>(lt: (K, K) -> bool, l: List<K, V>, links: Links)
    requires ListInv(lt, l, links)
    ensures l.height < MAX_HEIGHT
  {}

  lemma LinksAreNodes<K(!new), V>(lt: (K, K) -> bool, l: List<K, V>, links: Links)
    requires ListInv(lt, l, links)
    ensures links.Keys == l.entries.Keys && forall n :: n in links ==> n in l.towers
  {}

  lemma OwnedLinked<K, V>(lt: (K, K) -> bool, l: List<K, V>, links: Links, th: Thread<K, V>)
    requires ThreadInv(lt, l, links, th)
    ensures forall n :: n in Owned(th.pc) ==> n in links && n in l.entries
  {}

  lemma InvokeKeeps<K(!new), V>(lt: (K, K) -> bool, s: State<K, V>, a: Action<K, V>, s': State<K, V>, links: Links)
    requires Inv(lt, s, links) && Next(lt, s, a, s') && a.Invoke?
    ensures Inv(lt, s', links)
  {
    hide ListInv, Regions, ThreadInv, AllAttended;
    StartsWell(lt, s.list, links, a.op);
    AttendedInvoked(lt, s, a, s', links);
  }

  lemma StartsWell<K(!new), V>(lt: (K, K) -> bool, l: List<K, V>, links: Links, op: Op<K, V>)
    ensures ThreadInv(lt, l, links, Thread(op, Start))
  {}

  lemma AttendedInvoked<K(!new), V>(lt: (K, K) -> bool, s: State<K, V>, a: Action<K, V>, s': State<K, V>, links: Links)
    requires AllAttended(s, links) && Next(lt, s, a, s') && a.Invoke?
    ensures AllAttended(s', links)
  {
    forall n | n in links ensures Attended(s', links, n) {
      assert Attended(s, links, n);
      if !Whole(s.list, links, n) {
        var u :| u in s.threads && n in Owned(s.threads[u].pc);
        assert u != a.thread && s'.threads[u] == s.threads[u];
      }
    }
  }

  lemma AttendedKept<K, V>(s: State<K, V>, a: Action<K, V>, s': State<K, V>, links: Links, links': Links)
    requires AllAttended(s, links) && a.Move? && a.thread in s.threads && a.thread in s'.threads
    requires s'.threads == s.threads[a.thread := s'.threads[a.thread]]
    requires links.Keys == s.list.entries.Keys && forall n :: n in links ==> n in links' && n in s.list.towers
    requires LetGo(links, s'.list, links', Owned(s.threads[a.thread].pc), Owned(s'.threads[a.thread].pc))
    requires forall n {:trigger Untouched(s.list, links, s'.list, links', n)} ::
               n in links && n !in Owned(s.threads[a.thread].pc) ==> Untouched(s.list, links, s'.list, links', n)
    ensures AllAttended(s', links')
  {
    hide Owned;
    forall n | n in links' ensures Attended(s', links', n) {
      if n !in Owned(s'.threads[a.thread].pc) && n !in Owned(s.threads[a.thread].pc) && n in links {
        assert Untouched(s.list, links, s'.list, links', n) && Attended(s, links, n);
        if !Whole(s.list, links, n) {
          var u :| u in s.threads && n in Owned(s.threads[u].pc);
          assert s'.threads[u] == s.threads[u];
        }
      }
    }
  }

  /** Every step of every interleaving keeps the invariant, and the list only grows. */
  lemma NextKeeps<K(!new), V>(lt: (K, K) -> bool, s: State<K, V>, a: Action<K, V>, s': State<K, V>, links: Links)
    returns (links': Links)
    requires TotalOrder(lt) && Inv(lt, s, links) && Next(lt, s, a, s')
    ensures Inv(lt, s', links') && Grows(s.list, links, s'.list, links')
    ensures if a.Move? then LevelZeroEffect(links, links', s.threads[a.thread].pc) else links' == links
  {
    hide ListInv, Regions, ThreadInv, StepThread, Untouched, TotalOrder, LetGo, AllAttended;
    if a.Move? {
      var t := a.thread;
      links' := ThreadStepKeeps(lt, s.list, links, s.threads[t], a.choice);
      RegionsKept(lt, s.list, s.threads[t], a.choice);
      HeightBound(lt, s'.list, links');
      forall u | u in s.threads && u != t
        ensures ThreadInv(lt, s'.list, links', s.threads[u]) && Owned(s.threads[u].pc) !! Owned(s'.threads[t].pc)
      {
        OwnedLinked(lt, s.list, links, s.threads[u]);
        GrowsThread(lt, s.list, links, s'.list, links', s.threads[u]);
      }
      LinksAreNodes(lt, s.list, links);
      AttendedKept(s, a, s', links, links');
    } else {
      links' := links;
      InvokeKeeps(lt, s, a, s', links);
    }
  }
}
