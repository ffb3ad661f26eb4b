/** The lock-free skiplist of skiplist/src/list.rs as a transition system: any number of
    threads run `put` and `find_near`, and every step makes at most one access to shared
    memory (all atomics in the source are SeqCst). */
module Skiplist {
  import opened Wrappers

  const MAX_HEIGHT: nat := 20

  // Byte layout of Node on a 64-bit target: two 32-byte Bytes, a usize, then the tower.
  const NODE_ALIGN: nat := 8
  const NODE_SIZE: nat := 152
  const SLOT_SIZE: nat := 4
  const TOWER_START: nat := 72

  const NIL: nat := 0
  const HEAD: nat := 8

  datatype Entry<K, V> = Entry(key: K, value: V)

  /** `towers` holds the atomic words, `entries` the immutable part of every data node. */
  datatype List<K, V> = List(
    towers: map<nat, seq<nat>>,
    entries: map<nat, Entry<K, V>>,
    height: nat,
    arenaLen: nat,
    arenaCap: nat)

  datatype Op<K, V> =
    | Put(key: K, value: V)
    | Find(key: K, less: bool, allowEqual: bool)

  datatype Result<K, V> = Returned(rejected: Option<Entry<K, V>>) | Found(node: nat)

  /** What can stop a thread; the last one is the only one the code means to allow. */
  datatype Fault = BadPointer | PrevNullBelowTwo | SameSplice | EqualAboveZero | ArenaFull

  datatype Pc<K, V> =
    | Start
    | Search(listHeight: nat, level: nat, before: nat, prev: seq<nat>, next: seq<nat>)
    | Alloc(listHeight: nat, prev: seq<nat>, next: seq<nat>)
    | Raise(node: nat, listHeight: nat, prev: seq<nat>, next: seq<nat>)
    | Link(node: nat, level: nat, prev: seq<nat>, next: seq<nat>)
    | Swap(node: nat, level: nat, prev: seq<nat>, next: seq<nat>)
    | Splice(node: nat, level: nat, before: nat, prev: seq<nat>, next: seq<nat>, fromHead: bool)
    | Near(cursor: nat, level: nat)
    | Follow(node: nat)
    | Done(result: Result<K, V>)
    | Faulted(fault: Fault)

  datatype Thread<K, V> = Thread(op: Op<K, V>, pc: Pc<K, V>)

  datatype State<K, V> = State(list: List<K, V>, threads: map<nat, Thread<K, V>>)

  /** The outcomes a step may draw: the random tower height, and whether a weak CAS fails spuriously. */
  datatype Choice = Choice(height: nat, spurious: bool)

  datatype Action<K, V> = Invoke(thread: nat, op: Op<K, V>) | Move(thread: nat, choice: Choice)

  // ---------------------------------------------------------------- memory

  predicate HasSlot<K, V>(l: List<K, V>, n: nat, i: nat) {
    n in l.towers && i < |l.towers[n]|
  }

  function Load<K, V>(l: List<K, V>, n: nat, i: nat): nat
    requires HasSlot(l, n, i)
  {
    l.towers[n][i]
  }

  function Store<K, V>(l: List<K, V>, n: nat, i: nat, m: nat): List<K, V>
    requires HasSlot(l, n, i)
  {
    var tower: seq<nat> := l.towers[n][i := m];
    l.(towers := l.towers[n := tower])
  }

  function AlignUp(offset: nat): nat { (offset + (NODE_ALIGN - 1)) / NODE_ALIGN * NODE_ALIGN }

  /** Bytes taken by a node whose top level is `height`. */
  function NodeBytes(height: nat): nat
    requires height < MAX_HEIGHT
  {
    NODE_SIZE - (MAX_HEIGHT - height - 1) * SLOT_SIZE
  }

  function Zeros(n: nat): seq<nat> { seq(n, _ => NIL) }

  // ------------------------------------------------------------ one splice probe

  datatype Probe = Bad | Forward(node: nat) | Between(p: nat, n: nat) | Same(node: nat)

  /** One turn of the loop in find_splice_for_level. */
  function SpliceProbe<K, V>(lt: (K, K) -> bool, l: List<K, V>, key: K, before: nat, level: nat): Probe {
    if !HasSlot(l, before, level) then Bad else
    var n := Load(l, before, level);
    if n == NIL then Between(before, NIL)
    else if n !in l.entries then Bad
    else if lt(key, l.entries[n].key) then Between(before, n)
    else if lt(l.entries[n].key, key) then Forward(n)
    else Same(n)
  }

  // ---------------------------------------------------------------- put

  function Outcome<K, V(==)>(l: List<K, V>, n: nat, key: K, value: V): Pc<K, V>
    requires n in l.entries
  {
    Done(Returned(if l.entries[n].value != value then Some(Entry(key, value)) else None))
  }

  function StepSearch<K, V(==)>(lt: (K, K) -> bool, l: List<K, V>, key: K, value: V, pc: Pc<K, V>): Pc<K, V>
    requires pc.Search?
  {
    match SpliceProbe(lt, l, key, pc.before, pc.level)
    case Bad => Faulted(BadPointer)
    case Forward(n) => Search(pc.listHeight, pc.level, n, pc.prev, pc.next)
    case Same(n) => if n in l.entries then Outcome(l, n, key, value) else Faulted(BadPointer)
    case Between(p, n) =>
      if pc.level < |pc.prev| && pc.level < |pc.next| then
        var prev, next := pc.prev[pc.level := p], pc.next[pc.level := n];
        if pc.level == 0 then Alloc(pc.listHeight, prev, next)
        else Search(pc.listHeight, pc.level - 1, p, prev, next)
      else Faulted(BadPointer)
  }

  function StepAlloc<K, V>(l: List<K, V>, key: K, value: V, pc: Pc<K, V>, height: nat): (List<K, V>, Pc<K, V>)
    requires pc.Alloc? && height < MAX_HEIGHT
  {
    var size := NodeBytes(height) + (NODE_ALIGN - 1);
    var bumped := l.(arenaLen := l.arenaLen + size);
    if l.arenaLen + size > l.arenaCap then (bumped, Faulted(ArenaFull)) else
    var node := AlignUp(l.arenaLen);
    (bumped.(towers := l.towers[node := Zeros(height + 1)], entries := l.entries[node := Entry(key, value)]),
     Raise(node, pc.listHeight, pc.prev, pc.next))
  }

  function StepRaise<K, V>(l: List<K, V>, pc: Pc<K, V>, spurious: bool): (List<K, V>, Pc<K, V>)
    requires pc.Raise?
  {
    if pc.node !in l.towers || |l.towers[pc.node]| == 0 then (l, Faulted(BadPointer)) else
    var height := |l.towers[pc.node]| - 1;
    if height <= pc.listHeight then (l, Link(pc.node, 0, pc.prev, pc.next))
    else if l.height == pc.listHeight && !spurious then (l.(height := height), Link(pc.node, 0, pc.prev, pc.next))
    else (l, Raise(pc.node, l.height, pc.prev, pc.next))
  }

  function StepLink<K, V>(l: List<K, V>, pc: Pc<K, V>): (List<K, V>, Pc<K, V>)
    requires pc.Link?
  {
    if !HasSlot(l, pc.node, pc.level) || pc.level >= |pc.prev| || pc.level >= |pc.next| then (l, Faulted(BadPointer))
    else if pc.prev[pc.level] == NIL then
      (l, if pc.level <= 1 then Faulted(PrevNullBelowTwo)
          else Splice(pc.node, pc.level, HEAD, pc.prev, pc.next, true))
    else
      (Store(l, pc.node, pc.level, pc.next[pc.level]), Swap(pc.node, pc.level, pc.prev, pc.next))
  }

  function StepSwap<K, V>(l: List<K, V>, pc: Pc<K, V>): (List<K, V>, Pc<K, V>)
    requires pc.Swap?
  {
    if pc.level >= |pc.prev| || pc.level >= |pc.next| || pc.node !in l.towers
       || !HasSlot(l, pc.prev[pc.level], pc.level) then (l, Faulted(BadPointer))
    else if Load(l, pc.prev[pc.level], pc.level) == pc.next[pc.level] then
      (Store(l, pc.prev[pc.level], pc.level, pc.node),
       if pc.level + 1 == |l.towers[pc.node]| then Done(Returned(None))
       else Link(pc.node, pc.level + 1, pc.prev, pc.next))
    else
      (l, Splice(pc.node, pc.level, pc.prev[pc.level], pc.prev, pc.next, false))
  }

  function StepSplice<K, V(==)>(lt: (K, K) -> bool, l: List<K, V>, key: K, value: V, pc: Pc<K, V>): Pc<K, V>
    requires pc.Splice?
  {
    match SpliceProbe(lt, l, key, pc.before, pc.level)
    case Bad => Faulted(BadPointer)
    case Forward(n) => Splice(pc.node, pc.level, n, pc.prev, pc.next, pc.fromHead)
    case Same(n) =>
      if pc.fromHead then Faulted(SameSplice)
      else if pc.level != 0 then Faulted(EqualAboveZero)
      else if n in l.entries then Outcome(l, n, key, value)
      else Faulted(BadPointer)
    case Between(p, n) =>
      if pc.level < |pc.prev| && pc.level < |pc.next| then
        Link(pc.node, pc.level, pc.prev[pc.level := p], pc.next[pc.level := n])
      else Faulted(BadPointer)
  }

  // ---------------------------------------------------------------- find_near

  function CursorOrNil(cursor: nat): nat { if cursor == HEAD then NIL else cursor }

  /** One turn of the loop in find_near: one load, then the comparison of immutable keys. */
  function StepNear<K, V>(lt: (K, K) -> bool, l: List<K, V>, key: K, less: bool, allowEqual: bool,
                          cursor: nat, level: nat): Pc<K, V>
  {
    if !HasSlot(l, cursor, level) then Faulted(BadPointer) else
    var n := Load(l, cursor, level);
    if n == NIL then
      if level > 0 then Near(cursor, level - 1)
      else Done(Found(if !less then NIL else CursorOrNil(cursor)))
    else if n !in l.entries then Faulted(BadPointer)
    else if lt(l.entries[n].key, key) then Near(n, level)
    else if !lt(key, l.entries[n].key) then
      if allowEqual then Done(Found(n))
      else if !less then Follow(n)
      else if level > 0 then Near(cursor, level - 1)
      else Done(Found(CursorOrNil(cursor)))
    else if level > 0 then Near(cursor, level - 1)
    else if !less then Done(Found(n))
    else Done(Found(CursorOrNil(cursor)))
  }

  // ---------------------------------------------------------------- the system

  function StepStart<K, V>(l: List<K, V>, op: Op<K, V>): Pc<K, V> {
    match op
    case Put(_, _) =>
      if l.height < MAX_HEIGHT then
        Search(l.height, l.height, HEAD, Zeros(MAX_HEIGHT + 1)[l.height + 1 := HEAD], Zeros(MAX_HEIGHT + 1))
      else Faulted(BadPointer)
    case Find(_, _, _) => Near(HEAD, l.height)
  }

  function StepPut<K, V(==)>(lt: (K, K) -> bool, l: List<K, V>, key: K, value: V, pc: Pc<K, V>, c: Choice)
    : (List<K, V>, Pc<K, V>)
    requires c.height < MAX_HEIGHT
  {
    match pc
    case Search(_, _, _, _, _) => (l, StepSearch(lt, l, key, value, pc))
    case Alloc(_, _, _) => StepAlloc(l, key, value, pc, c.height)
    case Raise(_, _, _, _) => StepRaise(l, pc, c.spurious)
    case Link(_, _, _, _) => StepLink(l, pc)
    case Swap(_, _, _, _) => StepSwap(l, pc)
    case Splice(_, _, _, _, _, _) => (l, StepSplice(lt, l, key, value, pc))
    case _ => (l, pc)
  }

  function StepRead<K, V>(lt: (K, K) -> bool, l: List<K, V>, key: K, less: bool, allowEqual: bool, pc: Pc<K, V>): Pc<K, V> {
    match pc
    case Near(cursor, level) => StepNear(lt, l, key, less, allowEqual, cursor, level)
    case Follow(n) => if HasSlot(l, n, 0) then Done(Found(Load(l, n, 0))) else Faulted(BadPointer)
    case _ => pc
  }

  function StepThread<K, V(==)>(lt: (K, K) -> bool, l: List<K, V>, th: Thread<K, V>, c: Choice): (List<K, V>, Thread<K, V>)
    requires c.height < MAX_HEIGHT
  {
    if th.pc.Start? then (l, th.(pc := StepStart(l, th.op))) else
    match th.op
    case Put(key, value) =>
      var (l', pc') := StepPut(lt, l, key, value, th.pc, c);
      (l', th.(pc := pc'))
    case Find(key, less, allowEqual) =>
      (l, th.(pc := StepRead(lt, l, key, less, allowEqual, th.pc)))
  }

  /** `with_capacity`: the head node is the first allocation. */
  predicate Init<K, V>(s: State<K, V>) {
    && s.list.towers == map[HEAD := Zeros(MAX_HEIGHT)]
    && s.list.entries == map[]
    && s.list.height == 0
    && s.list.arenaLen == 1 + NODE_SIZE + (NODE_ALIGN - 1) <= s.list.arenaCap
    && s.threads == map[]
  }

  predicate Finished<K, V>(th: Thread<K, V>) { th.pc.Done? || th.pc.Faulted? }

  ghost predicate Next<K, V>(lt: (K, K) -> bool, s: State<K, V>, a: Action<K, V>, s': State<K, V>) {
    match a
    case Invoke(t, op) =>
      && (t in s.threads ==> Finished(s.threads[t]))
      && s' == s.(threads := s.threads[t := Thread(op, Start)])
    case Move(t, c) =>
      && t in s.threads && !Finished(s.threads[t]) && c.height < MAX_HEIGHT
      && var (l', th') := StepThread(lt, s.list, s.threads[t], c);
         && s' == State(l', s.threads[t := th'])
         && l'.arenaLen < 0x1_0000_0000  // the 32-bit bump counter does not wrap
  }

  ghost predicate Run<K, V>(lt: (K, K) -> bool, ss: seq<State<K, V>>, acts: seq<Action<K, V>>) {
    && |ss| == |acts| + 1
    && Init(ss[0])
    && forall i :: 0 <= i < |acts| ==> Next(lt, ss[i], acts[i], ss[i + 1])
  }
}
