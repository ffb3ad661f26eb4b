/** `CompactStatus` of src/levels/compaction.rs: which compactions may run side by side.
  * Tables stand for their ids. A failed assertion, an index out of bounds and an
  * overflow of `del_size` are the outcome `Panic`. */
module Compaction {
  import opened Wrappers
  import opened Bytes
  import opened Keys
  import opened KeyRanges

  datatype LevelCompactStatus = LevelCompactStatus(ranges: seq<KeyRange>, delSize: nat)

  datatype Status = Status(levels: seq<LevelCompactStatus>, tables: set<nat>)

  datatype CompactDef = CompactDef(
    thisLevel: nat, nextLevel: nat,
    thisRange: KeyRange, nextRange: KeyRange,
    top: seq<nat>, bot: seq<nat>,
    thisSize: nat)

  datatype Outcome = Done(after: Status) | Refused | Panic

  predicate OverlapsAny(ranges: seq<KeyRange>, dst: KeyRange) {
    exists i :: 0 <= i < |ranges| && Overlaps(ranges[i], dst)
  }

  /** `ranges.retain(|r| r != dst)` */
  function Retain(ranges: seq<KeyRange>, dst: KeyRange): seq<KeyRange> {
    if ranges == [] then []
    else (if ranges[0] == dst then [] else [ranges[0]]) + Retain(ranges[1..], dst)
  }

  /** A run of `assert!(tables.insert(id))`. */
  function InsertAll(tables: set<nat>, ids: seq<nat>): Option<set<nat>>
    decreases |ids|
  {
    if |ids| == 0 then Some(tables)
    else if ids[0] in tables then None
    else InsertAll(tables + {ids[0]}, ids[1..])
  }

  /** A run of `assert!(tables.remove(id))`. */
  function RemoveAll(tables: set<nat>, ids: seq<nat>): Option<set<nat>>
    decreases |ids|
  {
    if ids == [] then Some(tables)
    else if ids[0] !in tables then None
    else RemoveAll(tables - {ids[0]}, ids[1..])
  }

  function Push(levels: seq<LevelCompactStatus>, l: nat, range: KeyRange): seq<LevelCompactStatus>
    requires l < |levels|
  {
    levels[l := levels[l].(ranges := levels[l].ranges + [range])]
  }

  function Drop(levels: seq<LevelCompactStatus>, l: nat, range: KeyRange): seq<LevelCompactStatus>
    requires l < |levels|
  {
    levels[l := levels[l].(ranges := Retain(levels[l].ranges, range))]
  }

  /** What `compare_and_add` does to the levels once both ranges are admitted; None when `del_size` overflows. */
  function Raise(levels: seq<LevelCompactStatus>, d: CompactDef): Option<seq<LevelCompactStatus>>
    requires d.thisLevel < |levels| && d.nextLevel < |levels|
  {
    var pushed := Push(Push(levels, d.thisLevel, d.thisRange), d.nextLevel, d.nextRange);
    var size := pushed[d.thisLevel].delSize + d.thisSize;
    if size >= U64 then None else Some(pushed[d.thisLevel := pushed[d.thisLevel].(delSize := size)])
  }

  /** What `delete` does to the levels; None when it panics there. */
  function Lower(levels: seq<LevelCompactStatus>, d: CompactDef): Option<seq<LevelCompactStatus>>
    requires d.thisLevel < |levels|
  {
    var level := levels[d.thisLevel];
    if level.delSize < d.thisSize then None
    else
      var mine := Drop(levels[d.thisLevel := level.(delSize := level.delSize - d.thisSize)], d.thisLevel, d.thisRange);
      if d.nextRange.Empty? then
        if d.thisRange in level.ranges then Some(mine) else None
      else if d.nextLevel >= |levels| then None
      else if d.thisRange in level.ranges && d.nextRange in mine[d.nextLevel].ranges then
        Some(Drop(mine, d.nextLevel, d.nextRange))
      else None
  }

  /** `compare_and_add` */
  function AddDef(s: Status, d: CompactDef): Outcome {
    if d.thisLevel + 1 >= |s.levels| then Panic
    else if OverlapsAny(s.levels[d.thisLevel].ranges, d.thisRange) then Refused
    else if d.nextLevel >= |s.levels| then Panic
    else if OverlapsAny(s.levels[d.nextLevel].ranges, d.nextRange) then Refused
    else
      match (Raise(s.levels, d), InsertAll(s.tables, d.top + d.bot))
      case (Some(levels), Some(tables)) => Done(Status(levels, tables))
      case _ => Panic
  }

  /** `delete` */
  function DeleteDef(s: Status, d: CompactDef): Outcome {
    if d.thisLevel + 1 >= |s.levels| then Panic
    else
      match (Lower(s.levels, d), RemoveAll(s.tables, d.top + d.bot))
      case (Some(levels), Some(tables)) => Done(Status(levels, tables))
      case _ => Panic
  }

  // ------------------------------------------------------------ the class

  datatype Reply = Accepted | Rejected | Panicked

  class CompactStatus {
    var levels: seq<LevelCompactStatus>
    var tables: set<nat>

    ghost function State(): Status reads this { Status(levels, tables) }

    constructor (count: nat)
      ensures State() == Fresh(count)
    {
      levels := seq(count, _ => LevelCompactStatus([], 0));
      tables := {};
    }

    method OverlapsWith(level: nat, range: KeyRange) returns (r: bool)
      requires level < |levels|
      ensures r <==> exists i :: 0 <= i < |levels[level].ranges| && Overlaps(levels[level].ranges[i], range)
    {
      r := false;
      for i := 0 to |levels[level].ranges|
        invariant r <==> exists j :: 0 <= j < i && Overlaps(levels[level].ranges[j], range)
      {
        if Overlaps(levels[level].ranges[i], range) { r := true; }
      }
    }

    /** `LevelCompactStatus::remove` */
    method RemoveRange(level: nat, dst: KeyRange) returns (found: bool)
      requires level < |levels|
      modifies this`levels
      ensures levels == Drop(old(levels), level, dst)
      ensures found <==> dst in old(levels[level].ranges)
    {
      var ranges := levels[level].ranges;
      var kept := Retain(ranges, dst);
      RetainFinds(ranges, dst);
      found := |kept| != |ranges|;
      levels := levels[level := levels[level].(ranges := kept)];
    }

    method InsertTables(ids: seq<nat>) returns (ok: bool)
      modifies this`tables
      ensures match InsertAll(old(tables), ids) case None => !ok case Some(t) => ok && tables == t
    {
      for i := 0 to |ids|
        invariant InsertAll(old(tables), ids) == InsertAll(tables, ids[i..])
      {
        assert ids[i..][1..] == ids[i + 1..];
        if ids[i] in tables { return false; }
        tables := tables + {ids[i]};
      }
      ok := true;
    }

    method RemoveTables(ids: seq<nat>) returns (ok: bool)
      modifies this`tables
      ensures match RemoveAll(old(tables), ids) case None => !ok case Some(t) => ok && tables == t
    {
      for i := 0 to |ids|
        invariant RemoveAll(old(tables), ids) == RemoveAll(tables, ids[i..])
      {
        assert ids[i..][1..] == ids[i + 1..];
        if ids[i] !in tables { return false; }
        tables := tables - {ids[i]};
      }
      ok := true;
    }

    method CompareAndAdd(d: CompactDef) returns (r: Reply)
      modifies this
      ensures match AddDef(old(State()), d)
              case Done(after) => r == Accepted && State() == after
              case Refused => r == Rejected && State() == old(State())
              case Panic => r == Panicked
    {
      if d.thisLevel + 1 >= |levels| { return Panicked; }
      var blocked := OverlapsWith(d.thisLevel, d.thisRange);
      if blocked { return Rejected; }
      if d.nextLevel >= |levels| { return Panicked; }
      blocked := OverlapsWith(d.nextLevel, d.nextRange);
      if blocked { return Rejected; }
      levels := Push(levels, d.thisLevel, d.thisRange);
      levels := Push(levels, d.nextLevel, d.nextRange);
      var size := levels[d.thisLevel].delSize + d.thisSize;
      if size >= U64 { return Panicked; }
      levels := levels[d.thisLevel := levels[d.thisLevel].(delSize := size)];
      InsertJoins(tables, d.top, d.bot);
      var ok := InsertTables(d.top);
      if ok { ok := InsertTables(d.bot); }
      r := if ok then Accepted else Panicked;
    }

    method Delete(d: CompactDef) returns (r: Reply)
      modifies this
      ensures match DeleteDef(old(State()), d)
              case Done(after) => r == Accepted && State() == after
              case Refused => false
              case Panic => r == Panicked
    {
      if d.thisLevel + 1 >= |levels| || levels[d.thisLevel].delSize < d.thisSize { return Panicked; }
      var level := levels[d.thisLevel];
      levels := levels[d.thisLevel := level.(delSize := level.delSize - d.thisSize)];
      var found := RemoveRange(d.thisLevel, d.thisRange);
      if !d.nextRange.Empty? {
        if d.nextLevel >= |levels| { return Panicked; }
        var more := RemoveRange(d.nextLevel, d.nextRange);
        found := more && found;
      }
      if !found { return Panicked; }
      RemoveJoins(tables, d.top, d.bot);
      var ok := RemoveTables(d.top);
      if ok { ok := RemoveTables(d.bot); }
      r := if ok then Accepted else Panicked;
    }
  }

  function Fresh(count: nat): Status { Status(seq(count, _ => LevelCompactStatus([], 0)), {}) }

  // ------------------------------------------------------------ lists

  lemma {:induction false} RetainFinds(ranges: seq<KeyRange>, dst: KeyRange)
    ensures |Retain(ranges, dst)| <= |ranges|
    ensures |Retain(ranges, dst)| != |ranges| <==> dst in ranges
    ensures dst !in ranges ==> Retain(ranges, dst) == ranges
  {
    if ranges != [] {
      assert ranges == [ranges[0]] + ranges[1..];
      RetainFinds(ranges[1..], dst);
    }
  }

  lemma {:induction false} RetainJoins(a: seq<KeyRange>, b: seq<KeyRange>, dst: KeyRange)
    ensures Retain(a + b, dst) == Retain(a, dst) + Retain(b, dst)
  {
    if a == [] {
      assert a + b == b;
    } else {
      assert (a + b)[1..] == a[1..] + b;
      RetainJoins(a[1..], b, dst);
      var head := if a[0] == dst then [] else [a[0]];
      assert head + (Retain(a[1..], dst) + Retain(b, dst)) == (head + Retain(a[1..], dst)) + Retain(b, dst);
    }
  }

  lemma {:induction false} InsertJoins(t: set<nat>, a: seq<nat>, b: seq<nat>)
    decreases |a|
    ensures InsertAll(t, a + b) == match InsertAll(t, a) case None => None case Some(u) => InsertAll(u, b)
  {
    if a == [] {
      assert a + b == b;
    } else {
      assert (a + b)[1..] == a[1..] + b;
      InsertJoins(t + {a[0]}, a[1..], b);
    }
  }

  lemma {:induction false} RemoveJoins(t: set<nat>, a: seq<nat>, b: seq<nat>)
    decreases |a|
    ensures RemoveAll(t, a + b) == match RemoveAll(t, a) case None => None case Some(u) => RemoveAll(u, b)
  {
    if a == [] {
      assert a + b == b;
    } else {
      assert (a + b)[1..] == a[1..] + b;
      RemoveJoins(t - {a[0]}, a[1..], b);
    }
  }

  predicate Distinct(ids: seq<nat>) { forall i, j :: 0 <= i < j < |ids| ==> ids[i] != ids[j] }

  function Ids(ids: seq<nat>): set<nat> { set x | x in ids }

  /** Inserting succeeds exactly for distinct ids that are all new; then removing them undoes it. */
  lemma {:induction false} InsertWhen(t: set<nat>, ids: seq<nat>)
    decreases |ids|
    ensures InsertAll(t, ids) == if Distinct(ids) && Ids(ids) !! t then Some(t + Ids(ids)) else None
  {
    if ids != [] {
      var rest := ids[1..];
      assert ids == [ids[0]] + rest;
      assert Ids(ids) == {ids[0]} + Ids(rest);
      assert Distinct(ids) <==> Distinct(rest) && ids[0] !in rest;
      InsertWhen(t + {ids[0]}, rest);
      assert ids[0] in Ids(ids) && (ids[0] in rest <==> ids[0] in Ids(rest));
      assert t + {ids[0]} + Ids(rest) == t + Ids(ids);
    } else {
      assert t + Ids(ids) == t;
    }
  }

  lemma {:induction false} RemoveWhen(t: set<nat>, ids: seq<nat>)
    decreases |ids|
    ensures RemoveAll(t, ids) == if Distinct(ids) && Ids(ids) <= t then Some(t - Ids(ids)) else None
  {
    if ids != [] {
      var rest := ids[1..];
      assert ids == [ids[0]] + rest;
      assert Ids(ids) == {ids[0]} + Ids(rest);
      assert Distinct(ids) <==> Distinct(rest) && ids[0] !in rest;
      RemoveWhen(t - {ids[0]}, rest);
      assert ids[0] in Ids(ids) && (ids[0] in rest <==> ids[0] in Ids(rest));
      assert t - {ids[0]} - Ids(rest) == t - Ids(ids);
    } else {
      assert t - Ids(ids) == t;
    }
  }

  // ------------------------------------------------------------ delete after add

  lemma OverlapsItself(r: KeyRange)
    requires Proper(r)
    ensures Overlaps(r, r)
  {
    hide Before;
    KeyOrder();
  }

  /** A range overlaps itself, so a level that admits a range does not hold it yet. */
  lemma AdmittedIsNew(ranges: seq<KeyRange>, r: KeyRange)
    requires Proper(r) && !OverlapsAny(ranges, r)
    ensures r !in ranges
  {
    OverlapsItself(r);
  }

  /** When `delete` undoes `compare_and_add`: on two levels, when the second range is not Empty;
    * on one level, when the ranges differ and the second is not Empty, or both are Empty. */
  predicate Undoable(d: CompactDef) {
    if d.thisLevel != d.nextLevel then !d.nextRange.Empty?
    else if d.thisRange == d.nextRange then d.nextRange.Empty?
    else !d.nextRange.Empty?
  }

  /** Right after it is admitted a compaction is undone by `delete` exactly when it is `Undoable`;
    * otherwise `delete` panics (one level, equal ranges) or leaves an Empty range behind. */
  lemma DeleteUndoesAdd(s: Status, d: CompactDef)
    requires Proper(d.thisRange) && Proper(d.nextRange)
    requires AddDef(s, d).Done?
    ensures DeleteDef(AddDef(s, d).after, d) == Done(s) <==> Undoable(d)
    ensures DeleteDef(AddDef(s, d).after, d) == Panic <==>
      d.thisLevel == d.nextLevel && d.thisRange == d.nextRange && !d.nextRange.Empty?
    ensures !Undoable(d) && d.nextRange.Empty? ==>
      DeleteDef(AddDef(s, d).after, d) == Done(s.(levels := Push(s.levels, d.nextLevel, Empty)))
  {
    var t := AddDef(s, d).after;
    InsertWhen(s.tables, d.top + d.bot);
    RemoveWhen(t.tables, d.top + d.bot);
    assert t.tables - Ids(d.top + d.bot) == s.tables;
    AdmittedIsNew(s.levels[d.thisLevel].ranges, d.thisRange);
    AdmittedIsNew(s.levels[d.nextLevel].ranges, d.nextRange);
    if d.thisLevel == d.nextLevel { LowerOneLevel(s.levels, d); } else { LowerTwoLevels(s.levels, d); }
  }

  lemma LowerTwoLevels(levels: seq<LevelCompactStatus>, d: CompactDef)
    requires d.thisLevel < |levels| && d.nextLevel < |levels| && d.thisLevel != d.nextLevel
    requires d.thisRange !in levels[d.thisLevel].ranges && d.nextRange !in levels[d.nextLevel].ranges
    requires Raise(levels, d).Some?
    ensures Lower(Raise(levels, d).value, d)
         == Some(if d.nextRange.Empty? then Push(levels, d.nextLevel, Empty) else levels)
  {
    var mine, next := levels[d.thisLevel], levels[d.nextLevel];
    var raised := Raise(levels, d).value;
    assert raised[d.thisLevel] == LevelCompactStatus(mine.ranges + [d.thisRange], mine.delSize + d.thisSize);
    assert raised[d.nextLevel] == next.(ranges := next.ranges + [d.nextRange]);
    RetainEnds(mine.ranges, d.thisRange, d.thisRange);
    RetainEnds(next.ranges, d.nextRange, d.nextRange);
    hide Retain;
    var lowered := Lower(raised, d).value;
    assert forall l :: 0 <= l < |levels| ==> lowered[l] == levels[l] || (d.nextRange.Empty? && l == d.nextLevel);
    if d.nextRange.Empty? {
      assert lowered == Push(levels, d.nextLevel, Empty);
    } else {
      assert lowered == levels;
    }
  }

  lemma LowerOneLevel(levels: seq<LevelCompactStatus>, d: CompactDef)
    requires d.thisLevel < |levels| && d.thisLevel == d.nextLevel
    requires d.thisRange !in levels[d.thisLevel].ranges && d.nextRange !in levels[d.nextLevel].ranges
    requires Raise(levels, d).Some?
    ensures Lower(Raise(levels, d).value, d)
         == if d.thisRange == d.nextRange then (if d.nextRange.Empty? then Some(levels) else None)
            else Some(if d.nextRange.Empty? then Push(levels, d.nextLevel, Empty) else levels)
  {
    hide Retain, Lower, Raise;
    var l, level := d.thisLevel, levels[d.thisLevel];
    var both := level.ranges + [d.thisRange] + [d.nextRange];
    var size := level.delSize + d.thisSize;
    RaiseOne(levels, d);
    RetainEnds(level.ranges, d.thisRange, d.nextRange);
    RetainEnds(level.ranges, d.nextRange, d.nextRange);
    LowerOne(levels[l := LevelCompactStatus(both, size)], d);
    var left := LevelCompactStatus(Retain(both, d.thisRange), level.delSize);
    UpdateTwice(levels, l, LevelCompactStatus(both, size), left);
    UpdateTwice(levels, l, LevelCompactStatus(both, size), level);
    UpdateTwice(levels, l, level, level);
    assert d.thisRange == both[|level.ranges|];
    assert level.ranges + [] == level.ranges;
    if d.thisRange == d.nextRange {
      assert left == level;
      assert d.nextRange !in left.ranges;
    } else {
      assert left == level.(ranges := level.ranges + [d.nextRange]);
      assert d.nextRange == left.ranges[|level.ranges|];
      assert left.(ranges := level.ranges) == level;
    }
  }

  lemma UpdateTwice<T>(s: seq<T>, i: nat, a: T, b: T)
    requires i < |s|
    ensures s[i := a][i := b] == s[i := b] && s[i := s[i]] == s
  {}

  lemma RaiseOne(levels: seq<LevelCompactStatus>, d: CompactDef)
    requires d.thisLevel < |levels| && d.thisLevel == d.nextLevel && Raise(levels, d).Some?
    ensures
      var level := levels[d.thisLevel];
      Raise(levels, d).value
        == levels[d.thisLevel := LevelCompactStatus(level.ranges + [d.thisRange] + [d.nextRange], level.delSize + d.thisSize)]
  {}

  lemma LowerOne(levels: seq<LevelCompactStatus>, d: CompactDef)
    requires d.thisLevel < |levels| && d.thisLevel == d.nextLevel && levels[d.thisLevel].delSize >= d.thisSize
    ensures
      var level := levels[d.thisLevel];
      var left := LevelCompactStatus(Retain(level.ranges, d.thisRange), level.delSize - d.thisSize);
      var last := left.(ranges := Retain(left.ranges, d.nextRange));
      Lower(levels, d)
        == if d.thisRange !in level.ranges || (!d.nextRange.Empty? && d.nextRange !in left.ranges) then None
           else Some(levels[d.thisLevel := if d.nextRange.Empty? then left else last])
  {
    hide Retain;
    var l, level := d.thisLevel, levels[d.thisLevel];
    var a := level.(delSize := level.delSize - d.thisSize);
    var left := LevelCompactStatus(Retain(level.ranges, d.thisRange), level.delSize - d.thisSize);
    UpdateTwice(levels, l, a, left);
    UpdateTwice(levels, l, left, left.(ranges := Retain(left.ranges, d.nextRange)));
  }

  lemma RetainEnds(ranges: seq<KeyRange>, a: KeyRange, b: KeyRange)
    requires a !in ranges
    ensures Retain(ranges + [a], a) == ranges
    ensures Retain(ranges + [a] + [b], a) == ranges + (if a == b then [] else [b])
  {
    RetainFinds(ranges, a);
    RetainJoins(ranges, [a], a);
    RetainJoins(ranges + [a], [b], a);
  }

  lemma RetainOne(r: KeyRange, dst: KeyRange)
    ensures Retain([r], dst) == if r == dst then [] else [r]
  {
    assert [r][1..] == [];
  }

  /** When `delete` succeeds, and what it leaves. */
  lemma DeletesWhen(s: Status, d: CompactDef)
    ensures !DeleteDef(s, d).Refused?
    ensures DeleteDef(s, d).Done? <==>
      && d.thisLevel + 1 < |s.levels| && d.thisSize <= s.levels[d.thisLevel].delSize
      && d.thisRange in s.levels[d.thisLevel].ranges
      && (d.nextRange.Empty?
          || (d.nextLevel < |s.levels| && d.nextRange in s.levels[d.nextLevel].ranges
              && (d.thisLevel == d.nextLevel ==> d.thisRange != d.nextRange)))
      && Distinct(d.top + d.bot) && Ids(d.top + d.bot) <= s.tables
    ensures DeleteDef(s, d).Done? ==>
      var t := DeleteDef(s, d).after;
      && t.tables == s.tables - Ids(d.top + d.bot) && |t.levels| == |s.levels|
      && forall l: nat :: l < |s.levels| ==>
           && t.levels[l].delSize == s.levels[l].delSize - (if l == d.thisLevel then d.thisSize else 0)
           && t.levels[l].ranges == RangesLeft(s.levels[l].ranges, d, l)
  {
    hide Retain, RemoveAll, Distinct, Ids;
    RemoveWhen(s.tables, d.top + d.bot);
    if d.thisLevel + 1 < |s.levels| { StillIn(s.levels[d.thisLevel].ranges, d.thisRange, d.nextRange); }
  }

  function RangesLeft(ranges: seq<KeyRange>, d: CompactDef, l: nat): seq<KeyRange> {
    var left := if l == d.thisLevel then Retain(ranges, d.thisRange) else ranges;
    if l == d.nextLevel && !d.nextRange.Empty? then Retain(left, d.nextRange) else left
  }

  lemma {:induction false} StillIn(ranges: seq<KeyRange>, dst: KeyRange, r: KeyRange)
    ensures r in Retain(ranges, dst) <==> r in ranges && r != dst
  {
    if ranges != [] {
      StillIn(ranges[1..], dst, r);
      assert ranges == [ranges[0]] + ranges[1..];
    }
  }

  /** An Empty range left on a level blocks every later compaction from or into it. */
  lemma EmptyBlocks(s: Status, d: CompactDef, l: nat)
    requires l < |s.levels| && Empty in s.levels[l].ranges && (d.thisLevel == l || d.nextLevel == l)
    ensures !AddDef(s, d).Done?
  {
    var i :| 0 <= i < |s.levels[l].ranges| && s.levels[l].ranges[i] == Empty;
    assert Overlaps(s.levels[l].ranges[i], d.thisRange) && Overlaps(s.levels[l].ranges[i], d.nextRange);
  }

  /** Some range of a level shares a key with the new one, or is Empty. */
  ghost predicate Meets(ranges: seq<KeyRange>, dst: KeyRange) {
    exists i :: 0 <= i < |ranges| && (ranges[i].Empty? || exists k: Key :: Contains(ranges[i], k) && Contains(dst, k))
  }

  lemma MeetsIs(ranges: seq<KeyRange>, dst: KeyRange)
    requires Proper(dst) && forall r :: r in ranges ==> Proper(r)
    ensures OverlapsAny(ranges, dst) <==> Meets(ranges, dst)
  {
    hide Overlaps, Contains;
    forall i | 0 <= i < |ranges|
      ensures Overlaps(ranges[i], dst) <==> ranges[i].Empty? || exists k: Key :: Contains(ranges[i], k) && Contains(dst, k)
    {
      assert ranges[i] in ranges;
      OverlapsIsCommonKey(ranges[i], dst);
    }
  }

  /** When `compare_and_add` refuses, admits or panics, for all ranges, Empty ones included. */
  lemma AdmitsWhen(s: Status, d: CompactDef)
    requires Proper(d.thisRange) && Proper(d.nextRange)
    requires forall l, r :: 0 <= l < |s.levels| && r in s.levels[l].ranges ==> Proper(r)
    ensures AddDef(s, d).Refused? <==>
      && d.thisLevel + 1 < |s.levels|
      && (Meets(s.levels[d.thisLevel].ranges, d.thisRange)
          || (d.nextLevel < |s.levels| && Meets(s.levels[d.nextLevel].ranges, d.nextRange)))
    ensures AddDef(s, d).Done? <==>
      && d.thisLevel + 1 < |s.levels| && d.nextLevel < |s.levels|
      && !Meets(s.levels[d.thisLevel].ranges, d.thisRange) && !Meets(s.levels[d.nextLevel].ranges, d.nextRange)
      && s.levels[d.thisLevel].delSize + d.thisSize < U64
      && Distinct(d.top + d.bot) && Ids(d.top + d.bot) !! s.tables
  {
    hide OverlapsAny, Meets, InsertAll, Distinct, Ids;
    InsertWhen(s.tables, d.top + d.bot);
    if d.thisLevel + 1 < |s.levels| {
      MeetsIs(s.levels[d.thisLevel].ranges, d.thisRange);
      if d.nextLevel < |s.levels| { MeetsIs(s.levels[d.nextLevel].ranges, d.nextRange); }
    }
  }

  /** An Empty next range, the initial one of every definition, only meets another Empty. */
  lemma EmptyMeets(ranges: seq<KeyRange>)
    ensures Meets(ranges, Empty) <==> Empty in ranges
  {}

  /** The smallest case: nothing to delete below leaves Empty on the next level, which is then closed. */
  lemma EmptyIsLeftBehind(d: CompactDef)
    requires d.thisLevel == 1 || d.nextLevel == 1
    ensures
      var first := CompactDef(0, 1, Inf, Empty, [], [], 0);
      var added := AddDef(Fresh(3), first);
      && added.Done?
      && var deleted := DeleteDef(added.after, first);
      && deleted.Done? && deleted.after != Fresh(3)
      && !AddDef(deleted.after, d).Done?
  {
    var first := CompactDef(0, 1, Inf, Empty, [], [], 0);
    var added := AddDef(Fresh(3), first);
    DeleteUndoesAdd(Fresh(3), first);
    var left := DeleteDef(added.after, first).after;
    assert left.levels[1].ranges == [Empty];
    assert left.levels[1].ranges[0] == Empty;
    EmptyBlocks(left, d, 1);
  }
}
