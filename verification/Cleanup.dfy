/** Archiving duplicate current item upholsteries (cleanup_duplicate_item_upholsteries.py). Ids are ordered keys. */
module Cleanup {
  import opened Relational

  datatype Key = Key(workspace: Id, item: Id)

  datatype Row = Row(id: int, key: Key, createdAt: int, requirement: Option<Id>, upholstery: Option<Id>,
                     isDeleted: bool)

  /** A requirement, and whether it is completed or failed. */
  datatype Requirement = Requirement(owner: int, terminal: bool, isDeleted: bool)

  type Pool = map<Id, Requirement>

  predicate Dangling(r: Row, pool: Pool) {
    r.requirement.Some? && r.requirement.value !in pool
  }

  predicate Unfinished(r: Row, pool: Pool) {
    r.requirement.Some? && (r.requirement.value in pool ==> !pool[r.requirement.value].terminal)
  }

  predicate Older(a: Row, b: Row) {
    a.createdAt < b.createdAt || (a.createdAt == b.createdAt && a.id < b.id)
  }

  // ----- what a group's decision should be, without any order -----

  predicate TwoUnfinished(group: set<Row>, pool: Pool) {
    exists a, b :: a in group && b in group && a != b && Unfinished(a, pool) && Unfinished(b, pool)
  }

  /** The group needs a human: a pointer leads nowhere, or two rows still have work. */
  predicate Skips(group: set<Row>, pool: Pool) {
    (exists r :: r in group && Dangling(r, pool)) || TwoUnfinished(group, pool)
  }

  predicate OnlyPopulated(group: set<Row>, r: Row) {
    r in group && r.upholstery.Some? && forall q :: q in group && q.upholstery.Some? ==> q == r
  }

  predicate Oldest(group: set<Row>, r: Row) {
    r in group && forall q :: q in group && q != r ==> Older(r, q)
  }

  /** The row to keep: the one with unfinished work, else the only one with an upholstery, else the oldest. */
  predicate Keeps(group: set<Row>, pool: Pool, keep: Row) {
    && keep in group
    && ((exists r :: r in group && Unfinished(r, pool)) ==> Unfinished(keep, pool))
    && (!(exists r :: r in group && Unfinished(r, pool)) ==>
          if exists r :: r in group && OnlyPopulated(group, r) then OnlyPopulated(group, keep) else Oldest(group, keep))
  }

  /** The choice is determined by the rows alone. */
  lemma ChoiceIsUnique(group: set<Row>, pool: Pool, a: Row, b: Row)
    requires !Skips(group, pool) && Keeps(group, pool, a) && Keeps(group, pool, b)
    ensures a == b
  {
    if exists r :: r in group && Unfinished(r, pool) {
      assert !TwoUnfinished(group, pool);
    } else if exists r :: r in group && OnlyPopulated(group, r) {
    } else {
      assert a == b || (Older(a, b) && Older(b, a));
    }
  }

  // ----- the decision as the script makes it -----

  datatype Decision = Skip | Archive(keep: Row, archive: seq<Row>)

  ghost function Elements(rows: seq<Row>): set<Row> {
    set r | r in rows
  }

  ghost predicate Distinct(rows: seq<Row>) {
    forall i, j :: 0 <= i < j < |rows| ==> rows[i].id != rows[j].id
  }

  ghost predicate Ascending(rows: seq<Row>) {
    forall i, j :: 0 <= i < j < |rows| ==> !Older(rows[j], rows[i])
  }

  lemma HeadStaysFirst(rows: seq<Row>, r: Row, rest: seq<Row>)
    requires rows != [] && Ascending(rows) && Older(rows[0], r)
    requires forall q :: q in rest <==> q in rows[1..] || q == r
    ensures forall i :: 0 <= i < |rest| ==> !Older(rest[i], rows[0])
  {
    forall i | 0 <= i < |rest| ensures !Older(rest[i], rows[0]) {
      assert rest[i] in rest;
      if rest[i] != r {
        var j :| 0 <= j < |rows[1..]| && rows[1..][j] == rest[i];
        assert rest[i] == rows[j + 1];
      }
    }
  }

  lemma FirstIsLeast(rows: seq<Row>, r: Row)
    requires rows != [] && Ascending(rows) && !Older(rows[0], r)
    ensures forall i :: 0 <= i < |rows| ==> !Older(rows[i], r)
  {
    forall i | 0 <= i < |rows| ensures !Older(rows[i], r) {
      if 0 < i {
        assert !Older(rows[i], rows[0]);
      }
    }
  }

  function InsertRow(r: Row, rows: seq<Row>): (out: seq<Row>)
    requires Ascending(rows)
    ensures Ascending(out)
    ensures |out| == |rows| + 1
    ensures forall q :: q in out <==> q in rows || q == r
  {
    if rows == [] then [r]
    else if !Older(rows[0], r) then
      assert forall i :: 0 <= i < |rows| ==> !Older(rows[i], r) by { FirstIsLeast(rows, r); }
      [r] + rows
    else
      var rest := InsertRow(r, rows[1..]);
      assert rows == [rows[0]] + rows[1..];
      assert forall i :: 0 <= i < |rest| ==> !Older(rest[i], rows[0]) by { HeadStaysFirst(rows, r, rest); }
      [rows[0]] + rest
  }

  /** `sorted(rows, key=(created_at, client_id))`. */
  function SortRows(rows: seq<Row>): (out: seq<Row>)
    ensures Ascending(out) && |out| == |rows|
    ensures forall q :: q in out <==> q in rows
  {
    if rows == [] then []
    else
      assert rows == [rows[0]] + rows[1..];
      InsertRow(rows[0], SortRows(rows[1..]))
  }

  lemma {:induction false} InsertDistinct(r: Row, rows: seq<Row>)
    requires Ascending(rows) && Distinct(rows) && forall q :: q in rows ==> q.id != r.id
    ensures Distinct(InsertRow(r, rows))
  {
    if rows != [] && Older(rows[0], r) {
      InsertDistinct(r, rows[1..]);
      var rest := InsertRow(r, rows[1..]);
      forall i | 0 <= i < |rest| ensures rest[i].id != rows[0].id {
        assert rest[i] in rest;
        if rest[i] != r {
          var j :| 0 <= j < |rows[1..]| && rows[1..][j] == rest[i];
          assert rest[i] == rows[j + 1];
        }
      }
    }
  }

  lemma {:induction false} SortDistinct(rows: seq<Row>)
    requires Distinct(rows)
    ensures Distinct(SortRows(rows))
  {
    if rows != [] {
      SortDistinct(rows[1..]);
      InsertDistinct(rows[0], SortRows(rows[1..]));
    }
  }

  lemma HeadIsAlone(rows: seq<Row>, rest: seq<Row>)
    requires rows != [] && forall r :: r in rest ==> r in rows[1..]
    ensures Distinct(rows) ==> forall i :: 0 <= i < |rest| ==> rest[i].id != rows[0].id
  {
    if Distinct(rows) {
      forall i | 0 <= i < |rest| ensures rest[i].id != rows[0].id {
        assert rest[i] in rows[1..];
      }
    }
  }

  function Filter(rows: seq<Row>, p: Row -> bool): (out: seq<Row>)
    ensures forall r :: r in out <==> r in rows && p(r)
    ensures Distinct(rows) ==> Distinct(out)
  {
    if rows == [] then []
    else
      var rest := Filter(rows[1..], p);
      assert rows == [rows[0]] + rows[1..];
      HeadIsAlone(rows, rest);
      if p(rows[0]) then [rows[0]] + rest else rest
  }

  /** `decide_cleanup`, branch by branch. */
  function DecideCleanup(group: seq<Row>, pool: Pool): Decision
    requires group != []
  {
    var rows := SortRows(group);
    if Filter(rows, r => Dangling(r, pool)) != [] then Skip
    else
      var unfinished := Filter(rows, r => Unfinished(r, pool));
      if |unfinished| > 1 then Skip
      else
        var populated := Filter(rows, (r: Row) => r.upholstery.Some?);
        var keep := if unfinished != [] then unfinished[0] else if |populated| == 1 then populated[0] else rows[0];
        var archive := Filter(rows, (r: Row) => r.id != keep.id);
        if Filter(archive, r => Unfinished(r, pool)) != [] then Skip else Archive(keep, archive)
  }

  lemma ManyMeansTwo(rows: seq<Row>)
    requires Distinct(rows)
    ensures |rows| > 1 <==> exists a, b :: a in rows && b in rows && a != b
  {
    if |rows| > 1 {
      assert rows[0] in rows && rows[1] in rows && rows[0] != rows[1];
    }
  }

  lemma SortedFirstIsOldest(rows: seq<Row>)
    requires rows != [] && Ascending(rows) && Distinct(rows)
    ensures Oldest(Elements(rows), rows[0])
  {
    forall q | q in rows && q != rows[0] ensures Older(rows[0], q) {
      var i :| 0 <= i < |rows| && rows[i] == q;
      assert !Older(rows[i], rows[0]) && rows[i].id != rows[0].id;
    }
  }

  lemma SameIdSameRow(rows: seq<Row>, a: Row, b: Row)
    requires Distinct(rows) && a in rows && b in rows && a.id == b.id
    ensures a == b
  {
    var i :| 0 <= i < |rows| && rows[i] == a;
    var j :| 0 <= j < |rows| && rows[j] == b;
  }

  /** The skip tests of the script are the order-free ones. */
  lemma SkipTests(rows: seq<Row>, pool: Pool)
    requires Distinct(rows)
    ensures Filter(rows, r => Dangling(r, pool)) != [] <==> exists r :: r in Elements(rows) && Dangling(r, pool)
    ensures |Filter(rows, r => Unfinished(r, pool))| > 1 <==> TwoUnfinished(Elements(rows), pool)
  {
    var dangling := Filter(rows, r => Dangling(r, pool));
    var unfinished := Filter(rows, r => Unfinished(r, pool));
    if dangling != [] {
      assert dangling[0] in dangling;
    }
    if r :| r in Elements(rows) && Dangling(r, pool) {
      assert r in dangling;
    }
    ManyMeansTwo(unfinished);
    if a, b :| a in Elements(rows) && b in Elements(rows) && a != b && Unfinished(a, pool) && Unfinished(b, pool) {
      assert a in unfinished && b in unfinished;
    }
    if a, b :| a in unfinished && b in unfinished && a != b {
      assert a in Elements(rows) && b in Elements(rows);
    }
  }

  lemma PopulatedTest(rows: seq<Row>)
    requires Distinct(rows)
    ensures var populated := Filter(rows, (r: Row) => r.upholstery.Some?);
            if |populated| == 1 then OnlyPopulated(Elements(rows), populated[0])
            else !exists r :: r in Elements(rows) && OnlyPopulated(Elements(rows), r)
  {
    var populated := Filter(rows, (r: Row) => r.upholstery.Some?);
    if |populated| == 1 {
      assert populated[0] in populated;
    } else {
      ManyMeansTwo(populated);
    }
  }

  lemma KeepIsRight(rows: seq<Row>, pool: Pool, unfinished: seq<Row>, populated: seq<Row>, keep: Row)
    requires rows != [] && Distinct(rows) && |unfinished| <= 1
    requires forall r :: r in unfinished <==> r in rows && Unfinished(r, pool)
    requires if |populated| == 1 then OnlyPopulated(Elements(rows), populated[0]) else !exists r ::
               r in Elements(rows) && OnlyPopulated(Elements(rows), r)
    requires Oldest(Elements(rows), rows[0])
    requires keep == if unfinished != [] then unfinished[0] else if |populated| == 1 then populated[0] else rows[0]
    ensures Keeps(Elements(rows), pool, keep)
    ensures forall r :: r in rows && Unfinished(r, pool) ==> r == keep
  {
    var group := Elements(rows);
    if unfinished != [] {
      assert unfinished == [keep] && keep in unfinished;
      assert exists r :: r in group && Unfinished(r, pool);
    } else {
      assert forall r :: r in group ==> r in rows && r !in unfinished;
    }
  }

  lemma {:induction false} NoneFiltered(rows: seq<Row>, p: Row -> bool)
    requires forall r :: r in rows ==> !p(r)
    ensures Filter(rows, p) == []
  {
    if rows != [] {
      NoneFiltered(rows[1..], p);
    }
  }

  lemma ArchiveIsRight(rows: seq<Row>, pool: Pool, keep: Row)
    requires Distinct(rows) && keep in rows
    requires forall r :: r in rows && Unfinished(r, pool) ==> r == keep
    ensures var archive := Filter(rows, (r: Row) => r.id != keep.id);
            && Elements(archive) == Elements(rows) - {keep}
            && Filter(archive, r => Unfinished(r, pool)) == []
            && forall r :: r in archive ==> !Unfinished(r, pool)
  {
    var archive := Filter(rows, (r: Row) => r.id != keep.id);
    forall r | r in rows && r != keep ensures r.id != keep.id {
      if r.id == keep.id {
        SameIdSameRow(rows, r, keep);
      }
    }
    NoneFiltered(archive, r => Unfinished(r, pool));
  }

  /**
   * The decision is exactly the order-free one, for every order of the rows: skip when a human is needed,
   * otherwise split the group into the one row to keep and all the others, none of which has unfinished work.
   */
  lemma DecisionMeaning(group: seq<Row>, pool: Pool)
    requires group != [] && Distinct(group)
    ensures DecideCleanup(group, pool) == Skip <==> Skips(Elements(group), pool)
    ensures var d := DecideCleanup(group, pool);
            d.Archive? ==>
              && Keeps(Elements(group), pool, d.keep)
              && Elements(d.archive) == Elements(group) - {d.keep}
              && forall r :: r in d.archive ==> !Unfinished(r, pool)
  {
    var rows := SortRows(group);
    assert Elements(rows) == Elements(group);
    SortDistinct(group);
    SkipTests(rows, pool);
    var unfinished := Filter(rows, r => Unfinished(r, pool));
    if !Skips(Elements(group), pool) {
      var populated := Filter(rows, (r: Row) => r.upholstery.Some?);
      PopulatedTest(rows);
      SortedFirstIsOldest(rows);
      var keep := if unfinished != [] then unfinished[0] else if |populated| == 1 then populated[0] else rows[0];
      KeepIsRight(rows, pool, unfinished, populated, keep);
      ArchiveIsRight(rows, pool, keep);
    }
  }

  /** The row points at a requirement that was read and is not completed or failed. */
  predicate Open(r: Row, pool: Pool) {
    r.requirement.Some? && r.requirement.value in pool && !pool[r.requirement.value].terminal
  }

  /** A group is skipped exactly when a pointer leads nowhere or two rows point at open requirements. */
  lemma SkippedMeans(group: seq<Row>, pool: Pool)
    requires group != [] && Distinct(group)
    ensures DecideCleanup(group, pool).Skip? <==>
              || (exists r :: r in group && r.requirement.Some? && r.requirement.value !in pool)
              || (exists a, b :: a in group && b in group && a != b && Open(a, pool) && Open(b, pool))
  {
    DecisionMeaning(group, pool);
    if r :| r in group && r.requirement.Some? && r.requirement.value !in pool {
      assert r in Elements(group) && Dangling(r, pool);
    } else if a, b :| a in group && b in group && a != b && Open(a, pool) && Open(b, pool) {
      assert a in Elements(group) && b in Elements(group) && Unfinished(a, pool) && Unfinished(b, pool);
    } else {
      assert forall r :: r in Elements(group) ==> r in group && (Unfinished(r, pool) <==> Open(r, pool));
    }
  }

  /** A group whose pointers all lead to completed or failed requirements is always decided. */
  lemma SettledIsDecided(group: seq<Row>, pool: Pool)
    requires group != [] && Distinct(group)
    requires forall r :: r in group && r.requirement.Some? ==>
               r.requirement.value in pool && pool[r.requirement.value].terminal
    ensures DecideCleanup(group, pool).Archive?
  {
    SkippedMeans(group, pool);
  }

  ghost predicate SomeOpen(group: seq<Row>, pool: Pool) {
    exists r :: r in group && Open(r, pool)
  }

  ghost predicate OnlyWithUpholstery(group: seq<Row>, r: Row) {
    r in group && r.upholstery.Some? && forall q :: q in group && q.upholstery.Some? ==> q == r
  }

  ghost predicate FirstCreated(group: seq<Row>, r: Row) {
    forall q :: q in group ==> r.createdAt < q.createdAt || (r.createdAt == q.createdAt && r.id <= q.id)
  }

  lemma OnlyPopulatedMeans(group: seq<Row>, r: Row)
    ensures OnlyPopulated(Elements(group), r) <==> OnlyWithUpholstery(group, r)
  {
    assert forall q :: q in Elements(group) <==> q in group;
  }

  lemma OldestMeans(group: seq<Row>, r: Row)
    requires Oldest(Elements(group), r)
    ensures FirstCreated(group, r)
  {
    forall q | q in group ensures r.createdAt < q.createdAt || (r.createdAt == q.createdAt && r.id <= q.id) {
      assert q in Elements(group);
    }
  }

  lemma SomeOpenMeans(group: seq<Row>, pool: Pool)
    requires !exists r :: r in Elements(group) && Dangling(r, pool)
    ensures SomeOpen(group, pool) <==> exists r :: r in Elements(group) && Unfinished(r, pool)
    ensures forall r :: r in group ==> (Unfinished(r, pool) <==> Open(r, pool))
  {
    forall r | r in group ensures Unfinished(r, pool) <==> Open(r, pool) {
      assert r in Elements(group) && !Dangling(r, pool);
    }
    if SomeOpen(group, pool) {
      var r :| r in group && Open(r, pool);
      assert r in Elements(group);
    }
  }

  lemma ChoiceMeans(group: seq<Row>, pool: Pool, keep: Row)
    requires Keeps(Elements(group), pool, keep) && !exists r :: r in Elements(group) && Unfinished(r, pool)
    ensures (exists r :: OnlyWithUpholstery(group, r)) ==> OnlyWithUpholstery(group, keep)
    ensures !(exists r :: OnlyWithUpholstery(group, r)) ==> FirstCreated(group, keep)
  {
    if r :| OnlyWithUpholstery(group, r) {
      OnlyPopulatedMeans(group, r);
      assert r in Elements(group);
      OnlyPopulatedMeans(group, keep);
    } else {
      forall r | r in Elements(group) ensures !OnlyPopulated(Elements(group), r) {
        OnlyPopulatedMeans(group, r);
      }
      OldestMeans(group, keep);
    }
  }

  /**
   * Which row is kept, told from the columns: the one that points at an open requirement; else the only one with
   * an upholstery; else the oldest, by id among equally old ones. All the others are archived.
   */
  lemma KeptMeans(group: seq<Row>, pool: Pool)
    requires group != [] && Distinct(group) && DecideCleanup(group, pool).Archive?
    ensures var keep := DecideCleanup(group, pool).keep;
            && keep in group
            && (SomeOpen(group, pool) ==> Open(keep, pool))
            && (!SomeOpen(group, pool) && (exists r :: OnlyWithUpholstery(group, r)) ==>
                OnlyWithUpholstery(group, keep))
            && (!SomeOpen(group, pool) && !(exists r :: OnlyWithUpholstery(group, r)) ==> FirstCreated(group, keep))
  {
    DecisionMeaning(group, pool);
    SomeOpenMeans(group, pool);
    var keep := DecideCleanup(group, pool).keep;
    assert keep in Elements(group);
    if !SomeOpen(group, pool) {
      ChoiceMeans(group, pool, keep);
    }
  }

  /** Everything but the kept row is archived. */
  lemma ArchivedMeans(group: seq<Row>, pool: Pool, r: Row)
    requires group != [] && Distinct(group) && DecideCleanup(group, pool).Archive?
    ensures var d := DecideCleanup(group, pool); r in d.archive <==> r in group && r != d.keep
  {
    DecisionMeaning(group, pool);
    assert r in Elements(DecideCleanup(group, pool).archive) <==> r in DecideCleanup(group, pool).archive;
  }

  /** The input order never matters: the same rows give the same verdict, the same keeper and the same archive. */
  lemma OrderNeverMatters(a: seq<Row>, b: seq<Row>, pool: Pool)
    requires a != [] && b != [] && Distinct(a) && Distinct(b) && Elements(a) == Elements(b)
    ensures var d, e := DecideCleanup(a, pool), DecideCleanup(b, pool);
            (d == Skip <==> e == Skip)
                && (d.Archive? ==> e.Archive? && d.keep == e.keep && Elements(d.archive) == Elements(e.archive))
  {
    DecisionMeaning(a, pool);
    DecisionMeaning(b, pool);
    var d, e := DecideCleanup(a, pool), DecideCleanup(b, pool);
    if d.Archive? {
      ChoiceIsUnique(Elements(a), pool, d.keep, e.keep);
    }
  }

  // ----- the run over all groups -----

  type Table = map<int, Row>

  ghost predicate Keyed(t: Table) {
    forall id :: id in t ==> t[id].id == id
  }

  /** The live rows of one item. */
  function Group(t: Table, key: Key): set<Row> {
    set id | id in t && !t[id].isDeleted && t[id].key == key :: t[id]
  }

  /** Selected items with more than one live row. */
  function DuplicateKeys(t: Table, selects: Key -> bool): set<Key> {
    set id | id in t && !t[id].isDeleted && selects(t[id].key) && |Group(t, t[id].key)| > 1 :: t[id].key
  }

  /** The live requirements of all rows of the loaded groups, pooled. */
  function PoolOf(t: Table, keys: set<Key>, requirements: Pool): Pool {
    map q | q in requirements && !requirements[q].isDeleted && requirements[q].owner in t
         && !t[requirements[q].owner].isDeleted && t[requirements[q].owner].key in keys :: requirements[q]
  }

  /** A live row of a decided group that is not the row to keep. */
  predicate ShouldArchive(t: Table, pool: Pool, keys: set<Key>, r: Row) {
    !r.isDeleted && r.key in keys && !Skips(Group(t, r.key), pool) && !Keeps(Group(t, r.key), pool, r)
  }

  function Cleaned(t: Table, pool: Pool, keys: set<Key>): Table {
    map id | id in t :: if ShouldArchive(t, pool, keys, t[id]) then t[id].(isDeleted := true) else t[id]
  }

  function CleanRun(t: Table, requirements: Pool, selects: Key -> bool): Table {
    var keys := DuplicateKeys(t, selects);
    Cleaned(t, PoolOf(t, keys, requirements), keys)
  }

  lemma SmallSet(s: set<Row>)
    requires forall a, b :: a in s && b in s ==> a == b
    ensures |s| <= 1
  {
    if s != {} {
      var x :| x in s;
      assert s == {x};
    }
  }

  lemma SubsetSize(a: set<Row>, b: set<Row>)
    requires a <= b
    ensures |a| <= |b|
  {
    assert b == a + (b - a);
  }

  lemma RowOfGroup(t: Table, key: Key, r: Row)
    requires Keyed(t) && r in Group(t, key)
    ensures r.id in t && t[r.id] == r
  {
  }

  /** An item is a duplicate exactly when it is selected and two live rows carry it. */
  lemma DuplicatesMean(t: Table, selects: Key -> bool, key: Key)
    requires Keyed(t)
    ensures key in DuplicateKeys(t, selects) <==>
              selects(key) && exists a, b :: && a in t && b in t && a != b && !t[a].isDeleted && !t[b].isDeleted
                                             && t[a].key == key && t[b].key == key
  {
    var group := Group(t, key);
    if key in DuplicateKeys(t, selects) {
      if forall x, y :: x in group && y in group ==> x == y {
        SmallSet(group);
      }
      var x, y :| x in group && y in group && x != y;
      RowOfGroup(t, key, x);
      RowOfGroup(t, key, y);
      assert x.id != y.id && x.id in t && y.id in t && t[x.id] == x && t[y.id] == y;
    }
    if selects(key) {
      if a, b :| && a in t && b in t && a != b && !t[a].isDeleted && !t[b].isDeleted
                 && t[a].key == key && t[b].key == key {
        assert t[a] in group && t[b] in group && t[a] != t[b];
        SubsetSize({t[a], t[b]}, group);
        assert t[a].key == key;
      }
    }
  }

  /** Which requirements a run knows: live ones whose owner is a live row of a loaded group. */
  lemma KnownMeans(t: Table, keys: set<Key>, requirements: Pool, q: Id)
    ensures q in PoolOf(t, keys, requirements) <==>
              && q in requirements && !requirements[q].isDeleted
              && requirements[q].owner in t && !t[requirements[q].owner].isDeleted
                   && t[requirements[q].owner].key in keys
    ensures q in PoolOf(t, keys, requirements) ==> PoolOf(t, keys, requirements)[q] == requirements[q]
  {
  }

  /** A run marks rows as deleted and changes nothing else; rows that were deleted stay so. */
  lemma CleanedMeans(t: Table, pool: Pool, keys: set<Key>, id: int)
    ensures Cleaned(t, pool, keys).Keys == t.Keys
    ensures id in t ==> Cleaned(t, pool, keys)[id] == t[id] || Cleaned(t, pool, keys)[id] == t[id].(isDeleted := true)
    ensures id in t && t[id].key !in keys ==> Cleaned(t, pool, keys)[id] == t[id]
  {
  }

  /** No archived row points at an unfinished requirement. */
  lemma ArchivedRowsAreFinished(t: Table, pool: Pool, keys: set<Key>, id: int)
    requires id in t && ShouldArchive(t, pool, keys, t[id])
    ensures !Unfinished(t[id], pool)
  {
    var group := Group(t, t[id].key);
    assert t[id] in group;
  }

  // ----- who owns what a run archives -----

  /** A live requirement that is not completed or failed, and whose owner is a live row. */
  predicate OpenWork(t: Table, requirements: Pool, q: Id) {
    && q in requirements && !requirements[q].isDeleted && !requirements[q].terminal
    && requirements[q].owner in t && !t[requirements[q].owner].isDeleted
  }

  /** Every requirement that was open under a live row is still under a live row. */
  ghost predicate NoneOrphaned(t: Table, after: Table, requirements: Pool) {
    forall q :: OpenWork(t, requirements, q) ==>
      requirements[q].owner in after && !after[requirements[q].owner].isDeleted
  }

  /**
   * The owner of this requirement is out of danger: its item is not selected or not duplicated, its group
   * needs a human, or it is the row its group keeps.
   */
  predicate OwnerIsSafe(t: Table, requirements: Pool, keys: set<Key>, q: Id)
    requires OpenWork(t, requirements, q)
  {
    var owner := t[requirements[q].owner];
    var pool := PoolOf(t, keys, requirements);
    owner.key !in keys || Skips(Group(t, owner.key), pool) || Keeps(Group(t, owner.key), pool, owner)
  }

  /** A run orphans no open requirement exactly when each one's owner is safe, which the rows tell beforehand. */
  lemma OwnersSurvive(t: Table, requirements: Pool, selects: Key -> bool)
    ensures NoneOrphaned(t, CleanRun(t, requirements, selects), requirements) <==>
              forall q :: OpenWork(t, requirements, q) ==> OwnerIsSafe(t, requirements, DuplicateKeys(t, selects), q)
  {
    var keys := DuplicateKeys(t, selects);
    var pool := PoolOf(t, keys, requirements);
    var after := CleanRun(t, requirements, selects);
    forall q | OpenWork(t, requirements, q)
      ensures !after[requirements[q].owner].isDeleted <==> OwnerIsSafe(t, requirements, keys, q)
    {
      var id := requirements[q].owner;
      assert after[id] == if ShouldArchive(t, pool, keys, t[id]) then t[id].(isDeleted := true) else t[id];
    }
  }

  /** Owners that point at their own open requirements are safe, and then a run orphans nothing. */
  lemma PointingOwnersSurvive(t: Table, requirements: Pool, selects: Key -> bool)
    requires forall q :: OpenWork(t, requirements, q) ==> t[requirements[q].owner].requirement == Some(q)
    ensures NoneOrphaned(t, CleanRun(t, requirements, selects), requirements)
  {
    var keys := DuplicateKeys(t, selects);
    var pool := PoolOf(t, keys, requirements);
    forall q | OpenWork(t, requirements, q) ensures OwnerIsSafe(t, requirements, keys, q) {
      var owner := t[requirements[q].owner];
      if owner.key in keys {
        assert q in pool && Unfinished(owner, pool) && owner in Group(t, owner.key);
      }
    }
    OwnersSurvive(t, requirements, selects);
  }

  /** In a group that is decided, open requirements under two rows are always too many: one of them is orphaned. */
  lemma TwoOwnersLoseOne(t: Table, requirements: Pool, selects: Key -> bool, p: Id, q: Id)
    requires OpenWork(t, requirements, p) && OpenWork(t, requirements, q)
    requires var a, b := t[requirements[p].owner], t[requirements[q].owner];
             && a != b && a.key == b.key && a.key in DuplicateKeys(t, selects)
             && !Skips(Group(t, a.key), PoolOf(t, DuplicateKeys(t, selects), requirements))
    ensures !NoneOrphaned(t, CleanRun(t, requirements, selects), requirements)
  {
    var keys := DuplicateKeys(t, selects);
    var pool := PoolOf(t, keys, requirements);
    var a, b := t[requirements[p].owner], t[requirements[q].owner];
    OwnersSurvive(t, requirements, selects);
    if OwnerIsSafe(t, requirements, keys, p) && OwnerIsSafe(t, requirements, keys, q) {
      ChoiceIsUnique(Group(t, a.key), pool, a, b);
    }
  }

  /** Two rows of one item with no active requirement; the younger owns an open one. */
  function UnpointedOwner(key: Key): Table {
    map[1 := Row(1, key, 1, None, None, false), 2 := Row(2, key, 2, None, None, false)]
  }

  lemma UnpointedGroup(key: Key)
    ensures Group(UnpointedOwner(key), key) == {UnpointedOwner(key)[1], UnpointedOwner(key)[2]}
    ensures |Group(UnpointedOwner(key), key)| == 2
  {
    var t := UnpointedOwner(key);
    assert Group(t, key) == {t[1], t[2]};
    assert t[1] != t[2];
  }

  /** The promise not to delete the owner of an unfinished requirement fails: only the pointer is looked at. */
  lemma UnpointedOwnerIsArchived(key: Key, q: Id)
    ensures var t := UnpointedOwner(key);
            var requirements := map[q := Requirement(2, false, false)];
            OpenWork(t, requirements, q) && CleanRun(t, requirements, k => true)[2].isDeleted
  {
    var t := UnpointedOwner(key);
    var requirements := map[q := Requirement(2, false, false)];
    var keys := DuplicateKeys(t, k => true);
    UnpointedGroup(key);
    assert t[2].key == key;
    assert key in keys;
    var pool := PoolOf(t, keys, requirements);
    assert Older(t[1], t[2]) && Oldest(Group(t, key), t[1]);
    assert !Oldest(Group(t, key), t[2]);
    assert ShouldArchive(t, pool, keys, t[2]);
  }

  // ----- a second run -----

  /** Fewer known requirements never turn a skipped group into a decided one. */
  lemma SkipIsMonotone(group: set<Row>, pool: Pool, smaller: Pool)
    requires Skips(group, pool)
    requires forall q :: q in smaller ==> q in pool && smaller[q] == pool[q]
    ensures Skips(group, smaller)
  {
    if r :| r in group && Dangling(r, pool) {
      assert Dangling(r, smaller);
    } else {
      var a, b :| a in group && b in group && a != b && Unfinished(a, pool) && Unfinished(b, pool);
      assert Dangling(a, smaller) || Unfinished(a, smaller);
      assert Dangling(b, smaller) || Unfinished(b, smaller);
    }
  }

  lemma GroupShrinks(t: Table, pool: Pool, keys: set<Key>, key: Key)
    requires Keyed(t)
    ensures Group(Cleaned(t, pool, keys), key) <= Group(t, key)
    ensures forall r :: r in Group(Cleaned(t, pool, keys), key) ==> !ShouldArchive(t, pool, keys, r)
    ensures Skips(Group(t, key), pool) ==> Group(Cleaned(t, pool, keys), key) == Group(t, key)
  {
    var after := Cleaned(t, pool, keys);
    forall r | r in Group(after, key) ensures r in Group(t, key) && !ShouldArchive(t, pool, keys, r) {
      var id :| id in after && !after[id].isDeleted && after[id].key == key && after[id] == r;
      assert r == t[id];
    }
    if Skips(Group(t, key), pool) {
      forall r | r in Group(t, key) ensures r in Group(after, key) {
        var id :| id in t && !t[id].isDeleted && t[id].key == key && t[id] == r;
        assert after[id] == r;
      }
    }
  }

  /** A group that still has duplicates after a run was a skipped duplicate group before it, and is unchanged. */
  lemma LeftoverWasSkipped(t: Table, requirements: Pool, selects: Key -> bool, key: Key)
    requires Keyed(t) && key in DuplicateKeys(CleanRun(t, requirements, selects), selects)
    ensures key in DuplicateKeys(t, selects)
    ensures var pool := PoolOf(t, DuplicateKeys(t, selects), requirements);
            Skips(Group(t, key), pool) && Group(CleanRun(t, requirements, selects), key) == Group(t, key)
  {
    var keys := DuplicateKeys(t, selects);
    var pool := PoolOf(t, keys, requirements);
    var after := CleanRun(t, requirements, selects);
    var id :| id in after && !after[id].isDeleted && selects(after[id].key) && |Group(after, after[id].key)| > 1
        && after[id].key == key;
    GroupShrinks(t, pool, keys, key);
    SubsetSize(Group(after, key), Group(t, key));
    assert t[id] == after[id];
    assert key in keys;
    if !Skips(Group(t, key), pool) {
      forall a, b | a in Group(after, key) && b in Group(after, key) ensures a == b {
        ChoiceIsUnique(Group(t, key), pool, a, b);
      }
      SmallSet(Group(after, key));
    }
  }

  lemma PoolShrinks(t: Table, pool: Pool, keys: set<Key>, fewer: set<Key>, requirements: Pool)
    requires fewer <= keys && pool == PoolOf(t, keys, requirements)
    ensures forall q :: q in PoolOf(Cleaned(t, pool, keys), fewer, requirements) ==>
              q in pool && PoolOf(Cleaned(t, pool, keys), fewer, requirements)[q] == pool[q]
  {
  }

  /** A second run, even though it pools fewer requirements, archives nothing. */
  lemma SecondRunArchivesNothing(t: Table, requirements: Pool, selects: Key -> bool)
    requires Keyed(t)
    ensures CleanRun(CleanRun(t, requirements, selects), requirements, selects) == CleanRun(t, requirements, selects)
  {
    var keys := DuplicateKeys(t, selects);
    var pool := PoolOf(t, keys, requirements);
    var after := CleanRun(t, requirements, selects);
    var keys' := DuplicateKeys(after, selects);
    var pool' := PoolOf(after, keys', requirements);
    forall key | key in keys' ensures key in keys {
      LeftoverWasSkipped(t, requirements, selects, key);
    }
    PoolShrinks(t, pool, keys, keys', requirements);
    forall id | id in after ensures !ShouldArchive(after, pool', keys', after[id]) {
      var key := after[id].key;
      if key in keys' {
        LeftoverWasSkipped(t, requirements, selects, key);
        SkipIsMonotone(Group(t, key), pool, pool');
      }
    }
  }

  /** Every decided group ends with exactly one live row. */
  lemma OneRowSurvives(t: Table, pool: Pool, keys: set<Key>, key: Key, rows: seq<Row>)
    requires Keyed(t) && key in keys && !Skips(Group(t, key), pool)
    requires rows != [] && Distinct(rows) && Elements(rows) == Group(t, key)
    ensures var d := DecideCleanup(rows, pool);
            d.Archive? && Group(Cleaned(t, pool, keys), key) == {d.keep}
  {
    DecisionMeaning(rows, pool);
    var d := DecideCleanup(rows, pool);
    GroupShrinks(t, pool, keys, key);
    var after := Cleaned(t, pool, keys);
    forall r | r in Group(after, key) ensures r == d.keep {
      ChoiceIsUnique(Group(t, key), pool, r, d.keep);
    }
    var id :| id in t && !t[id].isDeleted && t[id].key == key && t[id] == d.keep;
    assert after[id] == t[id];
  }

  // ----- the run as the script makes it -----

  /** The rows of one group, in any order. */
  method ListGroup(t: Table, key: Key) returns (group: seq<Row>)
    requires Keyed(t)
    ensures Distinct(group) && Elements(group) == Group(t, key)
  {
    group := [];
    var rest := Group(t, key);
    while rest != {}
      invariant rest <= Group(t, key)
      invariant Distinct(group) && Elements(group) == Group(t, key) - rest
      decreases rest
    {
      var r :| r in rest;
      forall i | 0 <= i < |group| ensures group[i].id != r.id {
        assert group[i] in Elements(group);
        RowOfGroup(t, key, group[i]);
        RowOfGroup(t, key, r);
      }
      ghost var before := group;
      group := group + [r];
      rest := rest - {r};
      assert Elements(group) == Elements(before) + {r};
    }
  }

  function SkippedKeys(t: Table, pool: Pool, keys: set<Key>): set<Key> {
    set key | key in keys && Skips(Group(t, key), pool)
  }

  function RowsToArchive(t: Table, pool: Pool, keys: set<Key>): set<Row> {
    set id | id in t && ShouldArchive(t, pool, keys, t[id]) :: t[id]
  }

  lemma {:induction false} DistinctCount(rows: seq<Row>)
    requires Distinct(rows)
    ensures |Elements(rows)| == |rows|
  {
    if rows != [] {
      var n := |rows| - 1;
      DistinctCount(rows[..n]);
      assert Elements(rows) == Elements(rows[..n]) + {rows[n]};
      assert rows[n] !in rows[..n];
    }
  }

  lemma RowsUnion(t: Table, pool: Pool, done: set<Key>, more: set<Key>, archive: seq<Row>)
    requires forall id :: id in t ==>
               (ShouldArchive(t, pool, more, t[id]) <==> ShouldArchive(t, pool, done, t[id]) || t[id] in archive)
    requires forall r :: r in archive ==> r.id in t && t[r.id] == r
    ensures RowsToArchive(t, pool, more) == RowsToArchive(t, pool, done) + Elements(archive)
  {
    forall r | r in archive ensures r in RowsToArchive(t, pool, more) {
      assert ShouldArchive(t, pool, more, t[r.id]);
    }
  }

  lemma NotYetCounted(t: Table, pool: Pool, done: set<Key>, key: Key, archive: seq<Row>)
    requires key !in done && forall r :: r in archive ==> r.key == key
    ensures RowsToArchive(t, pool, done) !! Elements(archive)
  {
  }

  lemma ArchiveOfGroup(t: Table, pool: Pool, key: Key, group: seq<Row>)
    requires Keyed(t) && group != [] && Distinct(group) && Elements(group) == Group(t, key)
    requires DecideCleanup(group, pool).Archive?
    ensures var archive := DecideCleanup(group, pool).archive;
            Distinct(archive) && forall r :: r in archive ==> r.key == key && r.id in t && t[r.id] == r
  {
    DecisionMeaning(group, pool);
    SortDistinct(group);
    var archive := DecideCleanup(group, pool).archive;
    forall r | r in archive ensures r.key == key && r.id in t && t[r.id] == r {
      assert r in Elements(archive);
      RowOfGroup(t, key, r);
    }
  }

  lemma OneMoreKey(t: Table, pool: Pool, done: set<Key>, key: Key, r: Row)
    ensures ShouldArchive(t, pool, done + {key}, r) <==>
              || ShouldArchive(t, pool, done, r)
              || (!r.isDeleted && r.key == key && !Skips(Group(t, key), pool) && !Keeps(Group(t, key), pool, r))
  {
  }

  lemma InArchive(t: Table, pool: Pool, key: Key, group: seq<Row>, id: int)
    requires Keyed(t) && group != [] && Distinct(group) && Elements(group) == Group(t, key) && id in t
    requires DecideCleanup(group, pool).Archive?
    ensures t[id] in DecideCleanup(group, pool).archive <==>
              !t[id].isDeleted && t[id].key == key && !Keeps(Group(t, key), pool, t[id])
  {
    DecisionMeaning(group, pool);
    var d := DecideCleanup(group, pool);
    assert t[id] in d.archive <==> t[id] in Elements(d.archive);
    if t[id] in Group(t, key) && Keeps(Group(t, key), pool, t[id]) {
      ChoiceIsUnique(Group(t, key), pool, t[id], d.keep);
    }
    if !t[id].isDeleted && t[id].key == key {
      assert t[id] in Group(t, key);
    }
  }

  lemma OneRowStep(t: Table, pool: Pool, done: set<Key>, key: Key, group: seq<Row>, id: int)
    requires Keyed(t) && key !in done && group != [] && Distinct(group) && Elements(group) == Group(t, key) && id in t
    ensures var d := DecideCleanup(group, pool);
            ShouldArchive(t, pool, done + {key}, t[id]) <==>
                ShouldArchive(t, pool, done, t[id]) || (d.Archive? && t[id] in d.archive)
  {
    OneMoreKey(t, pool, done, key, t[id]);
    DecisionMeaning(group, pool);
    if DecideCleanup(group, pool).Archive? {
      InArchive(t, pool, key, group, id);
    }
  }

  /** The archived counter grows by the rows of the decision, none of them counted before. */
  lemma CountStep(t: Table, pool: Pool, done: set<Key>, key: Key, group: seq<Row>)
    requires Keyed(t) && key !in done && group != [] && Distinct(group) && Elements(group) == Group(t, key)
    ensures var d := DecideCleanup(group, pool);
            |RowsToArchive(t, pool, done + {key})| ==
                |RowsToArchive(t, pool, done)| + (if d == Skip then 0 else |d.archive|)
  {
    var d := DecideCleanup(group, pool);
    forall id | id in t ensures ShouldArchive(t, pool, done + {key}, t[id]) <==>
        ShouldArchive(t, pool, done, t[id]) || (d.Archive? && t[id] in d.archive) {
      OneRowStep(t, pool, done, key, group, id);
    }
    if d == Skip {
      RowsUnion(t, pool, done, done + {key}, []);
      assert Elements([]) == {};
    } else {
      ArchiveOfGroup(t, pool, key, group);
      RowsUnion(t, pool, done, done + {key}, d.archive);
      NotYetCounted(t, pool, done, key, d.archive);
      DistinctCount(d.archive);
    }
  }

  lemma SkippedStep(t: Table, pool: Pool, keys: set<Key>, key: Key)
    requires key !in keys
    ensures |SkippedKeys(t, pool, keys + {key})| ==
              |SkippedKeys(t, pool, keys)| + (if Skips(Group(t, key), pool) then 1 else 0)
  {
    var before, after := SkippedKeys(t, pool, keys), SkippedKeys(t, pool, keys + {key});
    if Skips(Group(t, key), pool) {
      assert after == before + {key};
    } else {
      assert after == before;
    }
  }

  function Marked(t: Table, current: Table, archive: seq<Row>): Table {
    map id | id in current :: if id in t && t[id] in archive then current[id].(isDeleted := true) else current[id]
  }

  /** Deciding one more group archives exactly the rows of its decision. */
  lemma CleanedStep(t: Table, pool: Pool, done: set<Key>, key: Key, group: seq<Row>)
    requires Keyed(t) && key !in done && group != [] && Distinct(group) && Elements(group) == Group(t, key)
    ensures var d := DecideCleanup(group, pool);
            Cleaned(t, pool, done + {key}) == if d == Skip then Cleaned(t, pool, done)
                else Marked(t, Cleaned(t, pool, done), d.archive)
  {
    var d := DecideCleanup(group, pool);
    var now, next := Cleaned(t, pool, done), Cleaned(t, pool, done + {key});
    forall id | id in t
      ensures next[id] == if d.Archive? && t[id] in d.archive then now[id].(isDeleted := true) else now[id]
    {
      OneRowStep(t, pool, done, key, group, id);
    }
    assert next.Keys == now.Keys;
  }

  /** One turn of the run: decide the group and mark the rows it archives. */
  method CleanGroup(loaded: Table, pool: Pool, ghost done: set<Key>, key: Key, group: seq<Row>, current: Table,
                    dryRun: bool)
    returns (next: Table, archived: nat, skipped: nat)
    requires Keyed(loaded) && key !in done && group != [] && Distinct(group) && Elements(group) == Group(loaded, key)
    requires current == if dryRun then loaded else Cleaned(loaded, pool, done)
    ensures next == if dryRun then loaded else Cleaned(loaded, pool, done + {key})
    ensures |SkippedKeys(loaded, pool, done + {key})| == |SkippedKeys(loaded, pool, done)| + skipped
    ensures |RowsToArchive(loaded, pool, done + {key})| == |RowsToArchive(loaded, pool, done)| + archived
  {
    next, archived, skipped := current, 0, 0;
    DecisionMeaning(group, pool);
    CleanedStep(loaded, pool, done, key, group);
    SkippedStep(loaded, pool, done, key);
    CountStep(loaded, pool, done, key, group);
    match DecideCleanup(group, pool) {
      case Skip =>
        skipped := 1;
      case Archive(keep, archive) =>
        archived := |archive|;
        if !dryRun {
          next := Marked(loaded, current, archive);
        }
    }
  }

  lemma NothingCleaned(t: Table, pool: Pool)
    ensures Cleaned(t, pool, {}) == t && SkippedKeys(t, pool, {}) == {} && RowsToArchive(t, pool, {}) == {}
  {
    var same := Cleaned(t, pool, {});
    assert forall id :: id in t ==> !ShouldArchive(t, pool, {}, t[id]);
    assert forall id :: id in t ==> same[id] == t[id];
  }

  lemma KeyHasRows(t: Table, selects: Key -> bool, key: Key, group: seq<Row>)
    requires key in DuplicateKeys(t, selects) && Elements(group) == Group(t, key)
    ensures group != []
  {
    var id :| id in t && !t[id].isDeleted && selects(t[id].key) && |Group(t, t[id].key)| > 1 && t[id].key == key;
    assert t[id] in Elements(group);
  }

  /** The run over the loaded groups, in any order. */
  method CleanGroups(loaded: Table, pool: Pool, selects: Key -> bool, keys: set<Key>, dryRun: bool)
    returns (rows: Table, archived: nat, skipped: nat)
    requires Keyed(loaded) && keys <= DuplicateKeys(loaded, selects)
    ensures rows == if dryRun then loaded else Cleaned(loaded, pool, keys)
    ensures archived == |RowsToArchive(loaded, pool, keys)| && skipped == |SkippedKeys(loaded, pool, keys)|
  {
    rows, archived, skipped := loaded, 0, 0;
    var rest := keys;
    ghost var done: set<Key> := {};
    NothingCleaned(loaded, pool);
    while rest != {}
      invariant done == keys - rest && rest <= keys
      invariant rows == if dryRun then loaded else Cleaned(loaded, pool, done)
      invariant skipped == |SkippedKeys(loaded, pool, done)|
      invariant archived == |RowsToArchive(loaded, pool, done)|
      decreases rest
    {
      var key :| key in rest;
      var group := ListGroup(loaded, key);
      KeyHasRows(loaded, selects, key, group);
      var wrote, passed;
      rows, wrote, passed := CleanGroup(loaded, pool, done, key, group, rows, dryRun);
      archived, skipped := archived + wrote, skipped + passed;
      rest := rest - {key};
      done := done + {key};
    }
    assert done == keys;
  }

  class UpholsteryTable {
    var rows: Table

    /**
     * Load the duplicate groups and the pooled requirements once, then decide and archive group by group.
     * Returns how many groups there were, how many rows were (or would be) archived, and how many groups were skipped.
     */
    method CleanUp(requirements: Pool, selects: Key -> bool, dryRun: bool)
      returns (groups: nat, archived: nat, skipped: nat)
      requires Keyed(rows)
      modifies this
      ensures rows == if dryRun then old(rows) else CleanRun(old(rows), requirements, selects)
      ensures groups == |DuplicateKeys(old(rows), selects)|
      ensures archived == |RowsToArchive(old(rows),
                                         PoolOf(old(rows), DuplicateKeys(old(rows), selects), requirements),
                                             DuplicateKeys(old(rows), selects))|
      ensures skipped == |SkippedKeys(old(rows), PoolOf(old(rows), DuplicateKeys(old(rows), selects), requirements),
                                      DuplicateKeys(old(rows), selects))|
    {
      var keys := DuplicateKeys(rows, selects);
      var pool := PoolOf(rows, keys, requirements);
      groups := |keys|;
      rows, archived, skipped := CleanGroups(rows, pool, selects, keys, dryRun);
    }
  }
}
