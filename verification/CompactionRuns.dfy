/** Whole runs of `CompactStatus`: compactions that are admitted exclude each other until deleted. */
module CompactionRuns {
  import opened Wrappers
  import opened Bytes
  import opened Keys
  import opened KeyRanges
  import opened Compaction

  /** Where a table lives; ids are never reused and a table never changes its level. */
  datatype Placed = Placed(level: nat, smallest: Key)

  type Catalog = map<nat, Placed>

  predicate Inside(cat: Catalog, ids: seq<nat>, level: nat, range: KeyRange) {
    && Distinct(ids)
    && forall x :: x in ids ==> x in cat && cat[x].level == level && Contains(range, cat[x].smallest)
  }

  /** A compaction between two levels whose ranges cover its tables. */
  predicate Admissible(cat: Catalog, n: nat, d: CompactDef) {
    && d.thisLevel + 1 < n
    && d.nextLevel < n
    && d.thisLevel != d.nextLevel
    && Proper(d.thisRange) && !d.thisRange.Empty?
    && Proper(d.nextRange) && !d.nextRange.Empty?
    && Inside(cat, d.top, d.thisLevel, d.thisRange)
    && Inside(cat, d.bot, d.nextLevel, d.nextRange)
  }

  function RangesOf(d: CompactDef, l: nat): seq<KeyRange> {
    (if d.thisLevel == l then [d.thisRange] else []) + (if d.nextLevel == l then [d.nextRange] else [])
  }

  function RangesOn(live: seq<CompactDef>, l: nat): seq<KeyRange> {
    if live == [] then [] else RangesOf(live[0], l) + RangesOn(live[1..], l)
  }

  function SizeOn(live: seq<CompactDef>, l: nat): nat {
    if live == [] then 0 else (if live[0].thisLevel == l then live[0].thisSize else 0) + SizeOn(live[1..], l)
  }

  function TablesOf(live: seq<CompactDef>): seq<nat> {
    if live == [] then [] else live[0].top + live[0].bot + TablesOf(live[1..])
  }

  predicate Apart(ranges: seq<KeyRange>) {
    forall i, j :: 0 <= i < j < |ranges| ==> !Overlaps(ranges[i], ranges[j])
  }

  /** The status holds the ranges, sizes and tables of the live compactions and nothing else. */
  ghost predicate Inv(cat: Catalog, n: nat, s: Status, live: seq<CompactDef>) {
    && |s.levels| == n
    && (forall d :: d in live ==> Admissible(cat, n, d))
    && (forall l: nat :: l < n ==> s.levels[l] == LevelCompactStatus(RangesOn(live, l), SizeOn(live, l)))
    && (forall l: nat :: l < n ==> Apart(RangesOn(live, l)))
    && Distinct(TablesOf(live))
    && s.tables == Ids(TablesOf(live))
  }

  /** The new compaction `d` meets a range of `e`. */
  predicate Clashes(e: CompactDef, d: CompactDef) {
    OverlapsAny(RangesOf(e, d.thisLevel), d.thisRange) || OverlapsAny(RangesOf(e, d.nextLevel), d.nextRange)
  }

  function Without(live: seq<CompactDef>, k: nat): seq<CompactDef>
    requires k < |live|
  {
    live[..k] + live[k + 1..]
  }

  // ------------------------------------------------------------ lists of live compactions

  lemma {:induction false} OnJoins(a: seq<CompactDef>, b: seq<CompactDef>, l: nat)
    ensures RangesOn(a + b, l) == RangesOn(a, l) + RangesOn(b, l)
    ensures SizeOn(a + b, l) == SizeOn(a, l) + SizeOn(b, l)
    ensures TablesOf(a + b) == TablesOf(a) + TablesOf(b)
  {
    hide RangesOf;
    if a == [] {
      assert a + b == b;
    } else {
      assert (a + b)[1..] == a[1..] + b;
      OnJoins(a[1..], b, l);
      Associate(RangesOf(a[0], l), RangesOn(a[1..], l), RangesOn(b, l));
      Associate(a[0].top + a[0].bot, TablesOf(a[1..]), TablesOf(b));
    }
  }

  lemma Associate<T>(a: seq<T>, b: seq<T>, c: seq<T>)
    ensures a + (b + c) == a + b + c
  {}

  lemma OnOne(d: CompactDef, l: nat)
    ensures RangesOn([d], l) == RangesOf(d, l)
    ensures SizeOn([d], l) == if d.thisLevel == l then d.thisSize else 0
    ensures TablesOf([d]) == d.top + d.bot
  {
    assert [d][1..] == [];
  }

  lemma {:induction false} OverlapsOn(live: seq<CompactDef>, l: nat, r: KeyRange)
    ensures OverlapsAny(RangesOn(live, l), r) <==>
            exists i :: 0 <= i < |live| && OverlapsAny(RangesOf(live[i], l), r)
  {
    if live != [] {
      var rest := live[1..];
      OverlapsOn(rest, l, r);
      OverlapsJoins(RangesOf(live[0], l), RangesOn(rest, l), r);
      hide RangesOf, OverlapsAny;
      assert forall i :: 0 <= i < |rest| ==> rest[i] == live[i + 1];
      assert forall i :: 0 < i < |live| ==> live[i] == rest[i - 1];
    }
  }

  lemma OverlapsJoins(a: seq<KeyRange>, b: seq<KeyRange>, r: KeyRange)
    ensures OverlapsAny(a + b, r) <==> OverlapsAny(a, r) || OverlapsAny(b, r)
  {
    hide Overlaps;
    if OverlapsAny(a, r) {
      var i :| 0 <= i < |a| && Overlaps(a[i], r);
      assert (a + b)[i] == a[i];
    }
    if OverlapsAny(b, r) {
      var i :| 0 <= i < |b| && Overlaps(b[i], r);
      assert (a + b)[|a| + i] == b[i];
    }
  }

  lemma {:induction false} HolderOf(live: seq<CompactDef>, x: nat)
    ensures x in TablesOf(live) <==> exists i :: 0 <= i < |live| && x in live[i].top + live[i].bot
  {
    if live != [] {
      var rest := live[1..];
      HolderOf(rest, x);
      assert forall i :: 0 <= i < |rest| ==> rest[i] == live[i + 1];
      assert forall i :: 0 < i < |live| ==> live[i] == rest[i - 1];
    }
  }

  lemma DistinctJoin(a: seq<nat>, b: seq<nat>)
    ensures Distinct(a + b) <==> Distinct(a) && Distinct(b) && Ids(a) !! Ids(b)
    ensures Ids(a + b) == Ids(a) + Ids(b)
  {
    var ab := a + b;
    assert forall i :: 0 <= i < |a| ==> a[i] == ab[i];
    assert forall j :: 0 <= j < |b| ==> b[j] == ab[|a| + j];
    if Distinct(ab) {
      forall i, j | 0 <= i < |a| && 0 <= j < |b| ensures a[i] != b[j] {
        assert ab[i] != ab[|a| + j];
      }
    } else if Distinct(a) && Distinct(b) {
      var i, j :| 0 <= i < j < |ab| && ab[i] == ab[j];
      assert i < |a| <= j;
      assert a[i] in Ids(a) && b[j - |a|] in Ids(b);
    }
  }

  // ------------------------------------------------------------ one call

  /** A table held by two compactions lies in a range of each on its level, so they clash. */
  lemma SharedTableClashes(cat: Catalog, n: nat, e: CompactDef, d: CompactDef, x: nat)
    requires Admissible(cat, n, e) && Admissible(cat, n, d)
    requires x in e.top + e.bot && x in d.top + d.bot
    ensures Clashes(e, d)
  {
    var r := if x in e.top then e.thisRange else e.nextRange;
    var q := if x in d.top then d.thisRange else d.nextRange;
    assert Contains(r, cat[x].smallest) && Contains(q, cat[x].smallest);
    OverlapsIsCommonKey(r, q);
    hide Overlaps, Contains;
    var ranges := RangesOf(e, cat[x].level);
    assert ranges == [r];
    assert Overlaps(ranges[0], q);
  }

  lemma NewTables(cat: Catalog, n: nat, live: seq<CompactDef>, d: CompactDef)
    requires (forall e :: e in live ==> Admissible(cat, n, e)) && Admissible(cat, n, d)
    requires forall i :: 0 <= i < |live| ==> !Clashes(live[i], d)
    ensures Distinct(d.top + d.bot)
    ensures Ids(d.top + d.bot) !! Ids(TablesOf(live))
  {
    hide Clashes;
    DistinctJoin(d.top, d.bot);
    forall x | x in d.top + d.bot ensures x !in TablesOf(live) {
      HolderOf(live, x);
      if i :| 0 <= i < |live| && x in live[i].top + live[i].bot {
        SharedTableClashes(cat, n, live[i], d, x);
      }
    }
  }

  lemma AdmittedWhen(n: nat, s: Status, live: seq<CompactDef>, d: CompactDef)
    requires |s.levels| == n && d.thisLevel + 1 < n && d.nextLevel < n
    requires forall l: nat :: l < n ==> s.levels[l].ranges == RangesOn(live, l)
    ensures OverlapsAny(s.levels[d.thisLevel].ranges, d.thisRange) || OverlapsAny(s.levels[d.nextLevel].ranges, d.nextRange)
       <==> exists i :: 0 <= i < |live| && Clashes(live[i], d)
  {
    hide OverlapsAny, RangesOn, RangesOf;
    OverlapsOn(live, d.thisLevel, d.thisRange);
    OverlapsOn(live, d.nextLevel, d.nextRange);
    if i :| 0 <= i < |live| && OverlapsAny(RangesOf(live[i], d.thisLevel), d.thisRange) {
      assert Clashes(live[i], d);
    }
    if i :| 0 <= i < |live| && OverlapsAny(RangesOf(live[i], d.nextLevel), d.nextRange) {
      assert Clashes(live[i], d);
    }
  }

  /** `compare_and_add` refuses exactly when the new compaction clashes with a live one, and its
    * table assertions never fail: only an overflow of `del_size` panics. */
  lemma AddKeeps(cat: Catalog, n: nat, s: Status, live: seq<CompactDef>, d: CompactDef)
    requires Inv(cat, n, s, live) && Admissible(cat, n, d)
    ensures AddDef(s, d).Refused? <==> exists i :: 0 <= i < |live| && Clashes(live[i], d)
    ensures AddDef(s, d).Panic? <==> !AddDef(s, d).Refused? && SizeOn(live, d.thisLevel) + d.thisSize >= U64
    ensures AddDef(s, d).Done? ==> Inv(cat, n, AddDef(s, d).after, live + [d])
  {
    hide OverlapsAny, Clashes, RangesOf, RangesOn, SizeOn, TablesOf, Apart, Distinct, InsertAll;
    AdmittedWhen(n, s, live, d);
    if !AddDef(s, d).Refused? {
      NewTables(cat, n, live, d);
      InsertWhen(s.tables, d.top + d.bot);
      if Raise(s.levels, d).Some? {
        var after := AddDef(s, d).after;
        var more := live + [d];
        forall l: nat | l < n
          ensures after.levels[l] == LevelCompactStatus(RangesOn(more, l), SizeOn(more, l))
          ensures Apart(RangesOn(more, l))
        {
          AddLevel(cat, n, s, live, d, l);
        }
        OnJoins(live, [d], 0);
        OnOne(d, 0);
        DistinctJoin(TablesOf(live), d.top + d.bot);
      }
    }
  }

  lemma AddLevel(cat: Catalog, n: nat, s: Status, live: seq<CompactDef>, d: CompactDef, l: nat)
    requires Inv(cat, n, s, live) && Admissible(cat, n, d) && AddDef(s, d).Done? && l < n
    ensures AddDef(s, d).after.levels[l] == LevelCompactStatus(RangesOn(live + [d], l), SizeOn(live + [d], l))
    ensures Apart(RangesOn(live + [d], l))
  {
    hide RangesOn, SizeOn, TablesOf, InsertAll, Overlaps;
    OnJoins(live, [d], l);
    OnOne(d, l);
    assert RangesOn(live, l) + [] == RangesOn(live, l);
  }

  predicate Separate(a: seq<KeyRange>, b: seq<KeyRange>) {
    forall i, j :: 0 <= i < |a| && 0 <= j < |b| ==> !Overlaps(a[i], b[j])
  }

  lemma ApartJoins(a: seq<KeyRange>, b: seq<KeyRange>)
    ensures Apart(a + b) <==> Apart(a) && Apart(b) && Separate(a, b)
  {
    hide Overlaps;
    var ab := a + b;
    assert forall i :: 0 <= i < |a| ==> a[i] == ab[i];
    assert forall j :: 0 <= j < |b| ==> b[j] == ab[|a| + j];
    if Apart(ab) {
      forall i, j | 0 <= i < |a| && 0 <= j < |b| ensures !Overlaps(a[i], b[j]) {
        assert !Overlaps(ab[i], ab[|a| + j]);
      }
    }
  }

  lemma ApartMiddle(a: seq<KeyRange>, r: KeyRange, b: seq<KeyRange>)
    requires Apart(a + [r] + b) && Overlaps(r, r)
    ensures r !in a && r !in b
    ensures Apart(a + b)
  {
    hide Overlaps, Apart;
    ApartJoins(a + [r], b);
    ApartJoins(a, [r]);
    ApartJoins(a, b);
    var left := a + [r];
    assert left[|a|] == r && [r][0] == r;
    assert forall i :: 0 <= i < |a| ==> a[i] == left[i] && !Overlaps(a[i], [r][0]);
    assert forall j :: 0 <= j < |b| ==> !Overlaps(left[|a|], b[j]);
  }

  lemma RetainOnly(a: seq<KeyRange>, r: KeyRange, b: seq<KeyRange>)
    requires Apart(a + [r] + b) && Proper(r)
    ensures r in a + [r] + b
    ensures Retain(a + [r] + b, r) == a + b
    ensures Apart(a + b)
  {
    hide Overlaps, Apart;
    OverlapsItself(r);
    ApartMiddle(a, r, b);
    RetainJoins(a + [r], b, r);
    RetainEnds(a, r, r);
    RetainFinds(b, r);
    assert (a + [r] + b)[|a|] == r;
  }

  lemma Splits(live: seq<CompactDef>, k: nat, l: nat)
    requires k < |live|
    ensures RangesOn(live, l) == RangesOn(live[..k], l) + RangesOf(live[k], l) + RangesOn(live[k + 1..], l)
    ensures RangesOn(Without(live, k), l) == RangesOn(live[..k], l) + RangesOn(live[k + 1..], l)
    ensures SizeOn(live, l) == SizeOn(Without(live, k), l) + (if live[k].thisLevel == l then live[k].thisSize else 0)
    ensures TablesOf(live) == TablesOf(live[..k]) + (live[k].top + live[k].bot) + TablesOf(live[k + 1..])
    ensures TablesOf(Without(live, k)) == TablesOf(live[..k]) + TablesOf(live[k + 1..])
  {
    assert live == live[..k] + [live[k]] + live[k + 1..];
    OnJoins(live[..k] + [live[k]], live[k + 1..], l);
    OnJoins(live[..k], [live[k]], l);
    OnJoins(live[..k], live[k + 1..], l);
    OnOne(live[k], l);
  }

  /** What `delete` leaves on one level. */
  function Left(level: LevelCompactStatus, d: CompactDef, l: nat): LevelCompactStatus
    requires d.thisLevel == l ==> level.delSize >= d.thisSize
  {
    if d.thisLevel == l then LevelCompactStatus(Retain(level.ranges, d.thisRange), level.delSize - d.thisSize)
    else if d.nextLevel == l then level.(ranges := Retain(level.ranges, d.nextRange))
    else level
  }

  lemma LowerLevels(levels: seq<LevelCompactStatus>, d: CompactDef)
    requires d.thisLevel < |levels| && d.nextLevel < |levels| && d.thisLevel != d.nextLevel && !d.nextRange.Empty?
    requires levels[d.thisLevel].delSize >= d.thisSize
    requires d.thisRange in levels[d.thisLevel].ranges && d.nextRange in levels[d.nextLevel].ranges
    ensures Lower(levels, d).Some? && |Lower(levels, d).value| == |levels|
    ensures forall l: nat :: l < |levels| ==> Lower(levels, d).value[l] == Left(levels[l], d, l)
  {
    hide Retain;
  }

  lemma DeleteLevel(cat: Catalog, n: nat, s: Status, live: seq<CompactDef>, k: nat, l: nat)
    requires Inv(cat, n, s, live) && k < |live| && l < n
    ensures live[k].thisLevel == l ==> s.levels[l].delSize >= live[k].thisSize && live[k].thisRange in s.levels[l].ranges
    ensures live[k].nextLevel == l ==> live[k].nextRange in s.levels[l].ranges
    ensures Left(s.levels[l], live[k], l) == LevelCompactStatus(RangesOn(Without(live, k), l), SizeOn(Without(live, k), l))
    ensures Apart(RangesOn(Without(live, k), l))
  {
    Splits(live, k, l);
    var d := live[k];
    var a, b := RangesOn(live[..k], l), RangesOn(live[k + 1..], l);
    assert Admissible(cat, n, d);
    hide RangesOn, SizeOn, TablesOf, Retain, Apart, Inside;
    if d.thisLevel == l {
      assert RangesOf(d, l) == [d.thisRange];
      RetainOnly(a, d.thisRange, b);
    } else if d.nextLevel == l {
      assert RangesOf(d, l) == [d.nextRange];
      RetainOnly(a, d.nextRange, b);
    } else {
      assert a + [] + b == a + b;
    }
  }

  /** Deleting a live compaction never panics and removes only what it brought. */
  lemma DeleteKeeps(cat: Catalog, n: nat, s: Status, live: seq<CompactDef>, k: nat)
    requires Inv(cat, n, s, live) && k < |live|
    ensures DeleteDef(s, live[k]).Done?
    ensures Inv(cat, n, DeleteDef(s, live[k]).after, Without(live, k))
  {
    hide RangesOn, SizeOn, TablesOf, Retain, Apart, Distinct, Left, RangesOf, RemoveAll, Inside, Lower;
    var d := live[k];
    forall l: nat | l < n
      ensures d.thisLevel == l ==> s.levels[l].delSize >= d.thisSize && d.thisRange in s.levels[l].ranges
      ensures d.nextLevel == l ==> d.nextRange in s.levels[l].ranges
      ensures Left(s.levels[l], d, l) == LevelCompactStatus(RangesOn(Without(live, k), l), SizeOn(Without(live, k), l))
      ensures Apart(RangesOn(Without(live, k), l))
    {
      DeleteLevel(cat, n, s, live, k, l);
    }
    assert Admissible(cat, n, d);
    LowerLevels(s.levels, d);
    DeleteTables(s.tables, live, k);
  }

  lemma DeleteTables(tables: set<nat>, live: seq<CompactDef>, k: nat)
    requires Distinct(TablesOf(live)) && tables == Ids(TablesOf(live)) && k < |live|
    ensures Distinct(TablesOf(Without(live, k)))
    ensures RemoveAll(tables, live[k].top + live[k].bot) == Some(Ids(TablesOf(Without(live, k))))
  {
    hide TablesOf, Distinct, RemoveAll;
    Splits(live, k, 0);
    var a, b := TablesOf(live[..k]), TablesOf(live[k + 1..]);
    var mine := live[k].top + live[k].bot;
    DistinctJoin(a + mine, b);
    DistinctJoin(a, mine);
    DistinctJoin(a, b);
    RemoveWhen(tables, mine);
    assert tables - Ids(mine) == Ids(a + b);
  }

  // ------------------------------------------------------------ whole runs

  /** `Delete(k)` deletes the k-th of the live compactions. */
  datatype Event = Add(d: CompactDef) | Delete(k: nat)

  /** The status and the live compactions after a run; None once a call has panicked. */
  function Replay(n: nat, events: seq<Event>): Option<(Status, seq<CompactDef>)> {
    if events == [] then Some((Fresh(n), []))
    else
      match Replay(n, events[..|events| - 1])
      case None => None
      case Some((s, live)) => Step(s, live, events[|events| - 1])
  }

  function Step(s: Status, live: seq<CompactDef>, e: Event): Option<(Status, seq<CompactDef>)> {
    match e
    case Add(d) =>
      (match AddDef(s, d)
       case Done(after) => Some((after, live + [d]))
       case Refused => Some((s, live))
       case Panic => None)
    case Delete(k) =>
      if k >= |live| then Some((s, live))
      else
        match DeleteDef(s, live[k])
        case Done(after) => Some((after, Without(live, k)))
        case _ => None
  }

  ghost predicate AllAdmissible(cat: Catalog, n: nat, events: seq<Event>) {
    forall e :: e in events && e.Add? ==> Admissible(cat, n, e.d)
  }

  /** After every run of admissible compactions the status is exactly that of the live ones. */
  lemma {:induction false} RunsKeep(cat: Catalog, n: nat, events: seq<Event>)
    requires AllAdmissible(cat, n, events)
    ensures match Replay(n, events) case None => true case Some((s, live)) => Inv(cat, n, s, live)
  {
    if events != [] {
      var before := events[..|events| - 1];
      RunsKeep(cat, n, before);
      match Replay(n, before)
      case None =>
      case Some((s, live)) => StepKeeps(cat, n, s, live, events[|events| - 1]);
    }
  }

  lemma StepKeeps(cat: Catalog, n: nat, s: Status, live: seq<CompactDef>, e: Event)
    requires Inv(cat, n, s, live) && (e.Add? ==> Admissible(cat, n, e.d))
    ensures match Step(s, live, e) case None => true case Some((t, after)) => Inv(cat, n, t, after)
    ensures Step(s, live, e).None? <==>
      e.Add? && (forall i :: 0 <= i < |live| ==> !Clashes(live[i], e.d)) && SizeOn(live, e.d.thisLevel) + e.d.thisSize >= U64
  {
    hide AddDef, DeleteDef, Inv, Admissible, Clashes;
    match e
    case Add(d) => AddKeeps(cat, n, s, live, d);
    case Delete(k) => if k < |live| { DeleteKeeps(cat, n, s, live, k); }
  }

  /** A run panics only where `del_size` overflows; no assertion and no index ever fails. */
  lemma OnlyOverflowPanics(cat: Catalog, n: nat, events: seq<Event>, e: Event)
    requires AllAdmissible(cat, n, events + [e])
    requires Replay(n, events).Some?
    ensures Replay(n, events + [e]).None? <==>
      e.Add? && var live := Replay(n, events).value.1;
        (forall i :: 0 <= i < |live| ==> !Clashes(live[i], e.d)) && SizeOn(live, e.d.thisLevel) + e.d.thisSize >= U64
  {
    assert (events + [e])[..|events|] == events;
    assert e in events + [e];
    RunsKeep(cat, n, events);
    var (s, live) := Replay(n, events).value;
    StepKeeps(cat, n, s, live, e);
  }

  /** Two live compactions never hold the same table, and no key lies in a range of both on one level. */
  lemma Exclusion(cat: Catalog, n: nat, events: seq<Event>, i: nat, j: nat)
    requires AllAdmissible(cat, n, events) && Replay(n, events).Some? && i < j < |Replay(n, events).value.1|
    ensures var live := Replay(n, events).value.1;
      && Ids(live[i].top + live[i].bot) !! Ids(live[j].top + live[j].bot)
      && forall l: nat, p, q, k | l < n && p in RangesOf(live[i], l) && q in RangesOf(live[j], l) ::
           !(Contains(p, k) && Contains(q, k))
  {
    hide Replay, Overlaps, Contains, Apart;
    RunsKeep(cat, n, events);
    var (s, live) := Replay(n, events).value;
    assert live[i] in live && live[j] in live;
    forall l: nat, p, q, k | l < n && p in RangesOf(live[i], l) && q in RangesOf(live[j], l)
      ensures !(Contains(p, k) && Contains(q, k))
    {
      ApartPair(live, l, i, j);
      assert Proper(p) && Proper(q) && !p.Empty? && !q.Empty?;
      OverlapsIsCommonKey(p, q);
    }
    var a, b := live[i].top + live[i].bot, live[j].top + live[j].bot;
    if x :| x in Ids(a) && x in Ids(b) {
      SharedTableClashes(cat, n, live[i], live[j], x);
      ApartPair(live, live[j].thisLevel, i, j);
      ApartPair(live, live[j].nextLevel, i, j);
      assert false;
    }
  }

  lemma ApartPair(live: seq<CompactDef>, l: nat, i: nat, j: nat)
    requires Apart(RangesOn(live, l)) && i < j < |live|
    ensures forall p, q :: p in RangesOf(live[i], l) && q in RangesOf(live[j], l) ==> !Overlaps(p, q)
  {
    var mine, theirs := RangesOf(live[i], l), RangesOf(live[j], l);
    var a, b := RangesOn(live[..j], l), RangesOn(live[j + 1..], l);
    var c, e := RangesOn(live[..j][..i], l), RangesOn(live[..j][i + 1..], l);
    Splits(live, j, l);
    Splits(live[..j], i, l);
    hide RangesOn, RangesOf, Overlaps, Apart, SizeOn, TablesOf;
    ApartJoins(a + theirs, b);
    ApartJoins(a, theirs);
    assert a == c + mine + e;
    forall x, y | 0 <= x < |mine| && 0 <= y < |theirs| ensures !Overlaps(mine[x], theirs[y]) {
      assert a[|c| + x] == mine[x];
    }
  }

  /** Once every live compaction is deleted the status is as it began. */
  lemma NoneLiveIsFresh(cat: Catalog, n: nat, s: Status)
    requires Inv(cat, n, s, [])
    ensures s == Fresh(n)
  {
    assert s.levels == Fresh(n).levels;
  }
}
