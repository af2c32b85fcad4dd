/** Counter and time rollups rebuilt from source records (backfill_completed_count.py, backfill_averaged_time.py). */
module Rollups {
  import opened Relational
  import opened Sums

  /** A COMPLETED step-state record joined with its step's section. */
  datatype Completion = Completion(workspace: Id, credited: Option<Id>, createdBy: Id, day: int, step: Id,
                                   section: Option<Id>)

  /** The credited user, or else the performer. */
  function UserOf(c: Completion): Id {
    if c.credited.Some? && c.credited.value != "" then c.credited.value else c.createdBy
  }

  predicate InSection(c: Completion) {
    c.section.Some? && c.section.value != ""
  }

  datatype UserDay = UserDay(workspace: Id, user: Id, day: int)
  datatype User = User(workspace: Id, user: Id)
  datatype UserSectionDay = UserSectionDay(workspace: Id, user: Id, section: Id, day: int)
  datatype SectionDay = SectionDay(workspace: Id, section: Id, day: int)

  datatype Counts = Counts(
    userDaily: map<UserDay, int>,
    userLifetime: map<User, int>,
    userSectionDaily: map<UserSectionDay, int>,
    sectionDaily: map<SectionDay, int>,
    taskSteps: map<Id, int>)

  function Bump<K>(m: map<K, int>, k: K): map<K, int> {
    m[k := At(m, k) + 1]
  }

  function WithoutDay(k: UserDay): User {
    User(k.workspace, k.user)
  }

  function WithoutUser(k: UserSectionDay): SectionDay {
    SectionDay(k.workspace, k.section, k.day)
  }

  const DayToUser: UserDay -> User := k => WithoutDay(k)
  const UserToSection: UserSectionDay -> SectionDay := k => WithoutUser(k)

  /** How many of the first rows are credited to exactly this user and day. */
  function CompletionsOn(rows: seq<Completion>, k: UserDay): nat {
    if rows == [] then 0
    else
      var last := rows[|rows| - 1];
      CompletionsOn(rows[..|rows| - 1], k) + if UserDay(last.workspace, UserOf(last), last.day) == k then 1 else 0
  }

  function CompletionsOf(rows: seq<Completion>, step: Id): nat {
    if rows == [] then 0
    else CompletionsOf(rows[..|rows| - 1], step) + if rows[|rows| - 1].step == step then 1 else 0
  }

  function SectionKey(row: Completion): UserSectionDay
    requires InSection(row)
  {
    UserSectionDay(row.workspace, UserOf(row), row.section.value, row.day)
  }

  /** How many are credited to exactly this user, section and day. */
  function CompletionsIn(rows: seq<Completion>, k: UserSectionDay): nat {
    if rows == [] then 0
    else
      var last := rows[|rows| - 1];
      CompletionsIn(rows[..|rows| - 1], k) + if InSection(last) && SectionKey(last) == k then 1 else 0
  }

  function Sectioned(rows: seq<Completion>): nat {
    if rows == [] then 0
    else Sectioned(rows[..|rows| - 1]) + if InSection(rows[|rows| - 1]) then 1 else 0
  }

  /** The five tallies agree with the rows they count, with each other, and lose nothing. */
  ghost predicate Agree(rows: seq<Completion>, c: Counts) {
    && (forall k :: At(c.userDaily, k) == CompletionsOn(rows, k))
    && (forall k :: At(c.userSectionDaily, k) == CompletionsIn(rows, k))
    && (forall step :: At(c.taskSteps, step) == CompletionsOf(rows, step))
    && (forall u :: At(c.userLifetime, u) == GroupTotal(c.userDaily, DayToUser, u))
    && (forall s :: At(c.sectionDaily, s) == GroupTotal(c.userSectionDaily, UserToSection, s))
    && Total(c.userDaily) == |rows| && Total(c.userLifetime) == |rows| && Total(c.taskSteps) == |rows|
    && Total(c.userSectionDaily) == Sectioned(rows) && Total(c.sectionDaily) == Sectioned(rows)
  }

  function DayKey(row: Completion): UserDay {
    UserDay(row.workspace, UserOf(row), row.day)
  }

  function UserKey(row: Completion): User {
    User(row.workspace, UserOf(row))
  }

  function Count(c: Counts, row: Completion): Counts {
    var c' := c.(taskSteps := Bump(c.taskSteps, row.step),
                 userDaily := Bump(c.userDaily, DayKey(row)),
                 userLifetime := Bump(c.userLifetime, UserKey(row)));
    if InSection(row) then
      c'.(userSectionDaily := Bump(c.userSectionDaily, SectionKey(row)),
          sectionDaily := Bump(c.sectionDaily, SectionDay(row.workspace, row.section.value, row.day)))
    else c'
  }

  lemma DailyStep(rows: seq<Completion>, m: map<UserDay, int>, row: Completion)
    requires forall k :: At(m, k) == CompletionsOn(rows, k)
    ensures forall k :: At(Bump(m, DayKey(row)), k) == CompletionsOn(rows + [row], k)
  {
    assert (rows + [row])[..|rows|] == rows;
  }

  lemma StepsStep(rows: seq<Completion>, m: map<Id, int>, row: Completion)
    requires forall step :: At(m, step) == CompletionsOf(rows, step)
    ensures forall step :: At(Bump(m, row.step), step) == CompletionsOf(rows + [row], step)
  {
    assert (rows + [row])[..|rows|] == rows;
  }

  lemma SectionsStep(rows: seq<Completion>, m: map<UserSectionDay, int>, row: Completion)
    requires forall k :: At(m, k) == CompletionsIn(rows, k)
    ensures forall k :: At(if InSection(row) then Bump(m, SectionKey(row)) else m, k) == CompletionsIn(rows + [row], k)
  {
    assert (rows + [row])[..|rows|] == rows;
  }

  /** A completion counts for the credited user, or the one who did it when nobody is credited, on its day. */
  lemma CreditGoesTo(rows: seq<Completion>, row: Completion, k: UserDay)
    ensures CompletionsOn(rows + [row], k) == CompletionsOn(rows, k)
              + if && k.workspace == row.workspace && k.day == row.day
                   && k.user == (if row.credited.Some? && row.credited.value != "" then row.credited.value
                                 else row.createdBy)
                then 1 else 0
  {
    assert (rows + [row])[..|rows|] == rows;
  }

  /** And in its section, when it has one. */
  lemma SectionCreditGoesTo(rows: seq<Completion>, row: Completion, k: UserSectionDay)
    ensures CompletionsIn(rows + [row], k) == CompletionsIn(rows, k)
              + if && row.section == Some(k.section) && k.section != ""
                   && k.workspace == row.workspace && k.day == row.day
                   && k.user == (if row.credited.Some? && row.credited.value != "" then row.credited.value
                                 else row.createdBy)
                then 1 else 0
  {
    assert (rows + [row])[..|rows|] == rows;
  }

  /** And for its step. */
  lemma StepCreditGoesTo(rows: seq<Completion>, row: Completion, step: Id)
    ensures CompletionsOf(rows + [row], step) == CompletionsOf(rows, step) + if row.step == step then 1 else 0
  {
    assert (rows + [row])[..|rows|] == rows;
  }

  /** Counting one more record keeps a coarse tally equal to the sums of the fine one. */
  lemma CoarseStep<K(!new), G(!new)>(fine: map<K, int>, coarse: map<G, int>, key: K -> G, k: K)
    requires forall g :: At(coarse, g) == GroupTotal(fine, key, g)
    ensures forall g :: At(Bump(coarse, key(k)), g) == GroupTotal(Bump(fine, k), key, g)
  {
    forall g ensures At(Bump(coarse, key(k)), g) == GroupTotal(Bump(fine, k), key, g) {
      GroupTotalBump(fine, key, k, 1, g);
    }
  }

  lemma TotalStep<K>(m: map<K, int>, k: K)
    ensures Total(Bump(m, k)) == Total(m) + 1
  {
    TotalBump(m, k, 1);
  }

  lemma SectionStep(rows: seq<Completion>, c: Counts, row: Completion)
    requires forall s :: At(c.sectionDaily, s) == GroupTotal(c.userSectionDaily, UserToSection, s)
    requires Total(c.userSectionDaily) == Sectioned(rows) && Total(c.sectionDaily) == Sectioned(rows)
    ensures var c' := Count(c, row);
            && (forall s :: At(c'.sectionDaily, s) == GroupTotal(c'.userSectionDaily, UserToSection, s))
            && Total(c'.userSectionDaily) == Sectioned(rows + [row])
                 && Total(c'.sectionDaily) == Sectioned(rows + [row])
  {
    assert (rows + [row])[..|rows|] == rows;
    if InSection(row) {
      var key := SectionKey(row);
      CoarseStep(c.userSectionDaily, c.sectionDaily, UserToSection, key);
      TotalStep(c.userSectionDaily, key);
      TotalStep(c.sectionDaily, WithoutUser(key));
    }
  }

  lemma CountStep(rows: seq<Completion>, c: Counts, row: Completion)
    requires Agree(rows, c)
    ensures Agree(rows + [row], Count(c, row))
  {
    DailyStep(rows, c.userDaily, row);
    StepsStep(rows, c.taskSteps, row);
    CoarseStep(c.userDaily, c.userLifetime, DayToUser, DayKey(row));
    TotalStep(c.userDaily, DayKey(row));
    TotalStep(c.userLifetime, UserKey(row));
    TotalStep(c.taskSteps, row.step);
    SectionsStep(rows, c.userSectionDaily, row);
    SectionStep(rows, c, row);
  }

  lemma EmptyAgrees()
    ensures Agree([], Counts(map[], map[], map[], map[], map[]))
  {
  }

  /** The streaming loop. */
  method CollectCounts(rows: seq<Completion>) returns (c: Counts)
    ensures Agree(rows, c)
  {
    c := Counts(map[], map[], map[], map[], map[]);
    EmptyAgrees();
    for i := 0 to |rows|
      invariant Agree(rows[..i], c)
    {
      CountStep(rows[..i], c, rows[i]);
      assert rows[..i] + [rows[i]] == rows[..i + 1];
      c := Count(c, rows[i]);
    }
    assert rows[..|rows|] == rows;
  }

  // ----- writing the counters -----

  /** A statistics row: its counter and everything else. */
  datatype Stat = Stat(count: int, rest: string)

  function Counters<K>(t: map<K, Stat>): map<K, int> {
    map k | k in t :: t[k].count
  }

  /** A rebuilt table: every row holds its tally, or zero; rows that were missing are created. */
  function Written<K>(t: map<K, Stat>, tally: map<K, int>, snapshot: K -> string): map<K, Stat> {
    map k | k in t.Keys + tally.Keys :: Stat(At(tally, k), if k in t then t[k].rest else snapshot(k))
  }

  /** Zero every row, then set or create one row per tallied key. */
  method WriteTable<K(==)>(t: map<K, Stat>, tally: map<K, int>, snapshot: K -> string) returns (r: map<K, Stat>)
    ensures r == Written(t, tally, snapshot)
    ensures r.Keys == t.Keys + tally.Keys
    ensures forall k :: k in r ==> r[k].count == if k in tally then tally[k] else 0
    ensures forall k :: k in r ==> r[k].rest == if k in t then t[k].rest else snapshot(k)
  {
    r := map k | k in t :: t[k].(count := 0);
    var rest := tally.Keys;
    ghost var done: set<K> := {};
    while rest != {}
      invariant rest <= tally.Keys && done == tally.Keys - rest
      invariant r.Keys == t.Keys + done
      invariant forall k :: k in r ==>
                  r[k] == Stat(if k in done then tally[k] else 0, if k in t then t[k].rest else snapshot(k))
      decreases rest
    {
      var k :| k in rest;
      r := r[k := Stat(tally[k], if k in r then r[k].rest else snapshot(k))];
      rest := rest - {k};
      done := done + {k};
    }
  }

  /** Task steps are only ever updated. */
  function WrittenSteps(t: map<Id, Stat>, tally: map<Id, int>): map<Id, Stat> {
    map k | k in t :: t[k].(count := At(tally, k))
  }

  method WriteSteps(t: map<Id, Stat>, tally: map<Id, int>) returns (r: map<Id, Stat>)
    ensures r == WrittenSteps(t, tally)
    ensures r.Keys == t.Keys
    ensures forall k :: k in r ==> r[k].rest == t[k].rest && r[k].count == if k in tally then tally[k] else 0
  {
    r := map k | k in t :: t[k].(count := 0);
    var rest := tally.Keys;
    ghost var done: set<Id> := {};
    while rest != {}
      invariant rest <= tally.Keys && done == tally.Keys - rest
      invariant r.Keys == t.Keys
      invariant forall k :: k in r ==> r[k] == t[k].(count := if k in done then tally[k] else 0)
      decreases rest
    {
      var k :| k in rest;
      if k in r {
        r := r[k := r[k].(count := tally[k])];
      }
      rest := rest - {k};
      done := done + {k};
    }
  }

  lemma PaddedSum<K(!new)>(m: map<K, int>, padded: map<K, int>, some: set<K>, all: set<K>)
    requires some <= all && forall k :: k in all ==> k in padded && padded[k] == At(m, k)
    requires forall k :: k in all && k in m ==> k in some
    ensures Sum(all, k => At(padded, k)) == Sum(some, k => At(m, k))
  {
    var extra := all - some;
    SumDisjoint(some, extra, k => At(padded, k));
    assert some + extra == all;
    SumSame(some, k => At(padded, k), k => At(m, k));
    SumZero(extra, k => At(padded, k));
  }

  /** Rows that hold zero change no total. */
  lemma PaddedTotals<K(!new), G(!new)>(m: map<K, int>, padded: map<K, int>, key: K -> G)
    requires m.Keys <= padded.Keys && forall k :: k in padded ==> padded[k] == At(m, k)
    ensures Total(padded) == Total(m)
    ensures forall g :: GroupTotal(padded, key, g) == GroupTotal(m, key, g)
  {
    PaddedSum(m, padded, m.Keys, padded.Keys);
    forall g ensures GroupTotal(padded, key, g) == GroupTotal(m, key, g) {
      PaddedSum(m, padded, Group(m.Keys, key, g), Group(padded.Keys, key, g));
    }
  }

  /**
   * After a complete run the tables agree with the source and with each other, whatever they held before:
   * daily and lifetime counters each add up to the number of completions, a lifetime is the sum of its
   * days, a section-day is the sum over its users, and a row without a source holds zero.
   */
  lemma CompletedRollupsAgree(rows: seq<Completion>, c: Counts, daily: map<UserDay, Stat>, lifetime: map<User, Stat>,
                              userSection: map<UserSectionDay, Stat>, section: map<SectionDay, Stat>,
                              f1: UserDay -> string, f2: User -> string, f3: UserSectionDay -> string,
                                  f4: SectionDay -> string)
    requires Agree(rows, c)
    ensures Total(Counters(Written(daily, c.userDaily, f1))) == |rows|
    ensures Total(Counters(Written(lifetime, c.userLifetime, f2))) == |rows|
    ensures Total(Counters(Written(userSection, c.userSectionDaily, f3))) == Sectioned(rows)
    ensures Total(Counters(Written(section, c.sectionDaily, f4))) == Sectioned(rows)
    ensures forall u :: u in Written(lifetime, c.userLifetime, f2) ==>
              Written(lifetime, c.userLifetime, f2)[u].count ==
                  GroupTotal(Counters(Written(daily, c.userDaily, f1)), DayToUser, u)
    ensures forall s :: s in Written(section, c.sectionDaily, f4) ==>
              Written(section, c.sectionDaily, f4)[s].count ==
                  GroupTotal(Counters(Written(userSection, c.userSectionDaily, f3)), UserToSection, s)
    ensures forall k :: k in Written(daily, c.userDaily, f1) ==>
              Written(daily, c.userDaily, f1)[k].count == CompletionsOn(rows, k)
    ensures forall k :: k in Written(userSection, c.userSectionDaily, f3) ==>
              Written(userSection, c.userSectionDaily, f3)[k].count == CompletionsIn(rows, k)
  {
    PaddedTotals(c.userDaily, Counters(Written(daily, c.userDaily, f1)), DayToUser);
    PaddedTotals(c.userLifetime, Counters(Written(lifetime, c.userLifetime, f2)), (u: User) => u);
    PaddedTotals(c.userSectionDaily, Counters(Written(userSection, c.userSectionDaily, f3)), UserToSection);
    PaddedTotals(c.sectionDaily, Counters(Written(section, c.sectionDaily, f4)), (s: SectionDay) => s);
  }

  /** Some completion is of this step. */
  ghost predicate Used(rows: seq<Completion>, step: Id) {
    exists i :: 0 <= i < |rows| && rows[i].step == step
  }

  lemma {:induction false} CountedSomewhere(rows: seq<Completion>, step: Id)
    ensures CompletionsOf(rows, step) > 0 <==> Used(rows, step)
  {
    if rows != [] {
      var n := |rows| - 1;
      CountedSomewhere(rows[..n], step);
      if i :| 0 <= i < |rows| && rows[i].step == step {
        assert i < n ==> rows[..n][i].step == step;
      }
    }
  }

  lemma TalliedAreUsed(rows: seq<Completion>, tally: map<Id, int>)
    requires forall step :: At(tally, step) == CompletionsOf(rows, step)
    ensures forall step :: At(tally, step) >= 0 && (At(tally, step) > 0 <==> Used(rows, step))
  {
    forall step ensures At(tally, step) >= 0 && (At(tally, step) > 0 <==> Used(rows, step)) {
      CountedSomewhere(rows, step);
    }
  }

  lemma UsedAreKnown(rows: seq<Completion>, steps: set<Id>)
    ensures (forall step :: Used(rows, step) ==> step in steps) <==>
              forall i :: 0 <= i < |rows| ==> rows[i].step in steps
  {
    if forall step :: Used(rows, step) ==> step in steps {
      forall i | 0 <= i < |rows| ensures rows[i].step in steps {
        assert Used(rows, rows[i].step);
      }
    }
  }

  ghost function Uses(rows: seq<Completion>): Id -> bool {
    step => Used(rows, step)
  }

  lemma NoneLost(tally: map<Id, int>, steps: set<Id>, used: Id -> bool)
    requires forall step :: At(tally, step) >= 0 && (At(tally, step) > 0 <==> used(step))
    ensures Sum(tally.Keys - steps, k => At(tally, k)) == 0 <==> forall step :: used(step) ==> step in steps
  {
    SumZero(tally.Keys - steps, k => At(tally, k));
    assert forall step :: used(step) && step !in steps ==> step in tally.Keys - steps && At(tally, step) != 0;
  }

  /** What a table keeps of a tally and what it has no row for are the whole tally. */
  lemma SplitTotal(tally: map<Id, int>, kept: map<Id, int>)
    requires forall k :: k in kept ==> kept[k] == At(tally, k)
    ensures Total(tally) == Total(kept) + Sum(tally.Keys - kept.Keys, k => At(tally, k))
  {
    var both, lost := tally.Keys * kept.Keys, tally.Keys - kept.Keys;
    PaddedSum(tally, kept, both, kept.Keys);
    SumDisjoint(both, lost, k => At(tally, k));
    assert both + lost == tally.Keys;
  }

  /**
   * Steps are updated and never created, so their counters hold each step's completions and add up to the
   * number of completions exactly when every completion's step still has a row.
   */
  lemma StepCountersAddUp(rows: seq<Completion>, c: Counts, steps: map<Id, Stat>)
    requires Agree(rows, c)
    ensures forall k :: k in steps ==> WrittenSteps(steps, c.taskSteps)[k].count == CompletionsOf(rows, k)
    ensures Total(Counters(WrittenSteps(steps, c.taskSteps))) == |rows| <==>
              forall i :: 0 <= i < |rows| ==> rows[i].step in steps
  {
    SplitTotal(c.taskSteps, Counters(WrittenSteps(steps, c.taskSteps)));
    assert Counters(WrittenSteps(steps, c.taskSteps)).Keys == steps.Keys;
    TalliedAreUsed(rows, c.taskSteps);
    NoneLost(c.taskSteps, steps.Keys, Uses(rows));
    UsedAreKnown(rows, steps.Keys);
  }

  /** The rebuilt counters depend on the source alone: earlier contents are forgotten. */
  lemma RebuildForgets<K>(a: map<K, Stat>, b: map<K, Stat>, tally: map<K, int>, snapshot: K -> string, k: K)
    requires k in Written(a, tally, snapshot) && k in Written(b, tally, snapshot)
    ensures Written(a, tally, snapshot)[k].count == Written(b, tally, snapshot)[k].count
    ensures Written(Written(a, tally, snapshot), tally, snapshot) == Written(a, tally, snapshot)
  {
  }

  // ----- summing one table into another -----

  /** `SELECT sum(...) ... GROUP BY`, for one column and one group. */
  method GroupSum<K(==), G(==)>(detail: map<K, int>, key: K -> G, g: G) returns (total: int)
    ensures total == GroupTotal(detail, key, g)
  {
    total := 0;
    var rest := Group(detail.Keys, key, g);
    ghost var f := (k: K) => At(detail, k);
    while rest != {}
      invariant rest <= Group(detail.Keys, key, g) && total + Sum(rest, f) == GroupTotal(detail, key, g)
      decreases rest
    {
      var k :| k in rest;
      SumPick(rest, f, k);
      total := total + detail[k];
      rest := rest - {k};
    }
  }

  /** The seven totals and four inaccurate figures of a time row, in the order of the SELECT. */
  const COLUMNS: nat := 11

  function Column<K>(t: map<K, seq<int>>, c: nat): map<K, int> {
    map k | k in t :: if c < |t[k]| then t[k][c] else 0
  }

  /** The grouped sums of every column, for one group. */
  method SumRow<K(==), G(==)>(detail: map<K, seq<int>>, key: K -> G, g: G) returns (row: seq<int>)
    ensures |row| == COLUMNS && forall c :: 0 <= c < COLUMNS ==> row[c] == GroupTotal(Column(detail, c), key, g)
  {
    row := [];
    for c := 0 to COLUMNS
      invariant |row| == c && forall i :: 0 <= i < c ==> row[i] == GroupTotal(Column(detail, i), key, g)
    {
      var total := GroupSum(Column(detail, c), key, g);
      row := row + [total];
    }
  }

  /** Each group's row, or zeroes, adds up over the groups to the whole column. */
  lemma SummaryAddsUp<K(!new), G(!new)>(detail: map<K, int>, key: K -> G, summary: map<G, int>)
    requires forall k :: k in detail ==> key(k) in summary
    requires forall g :: g in summary ==> summary[g] == GroupTotal(detail, key, g)
    ensures Total(summary) == Total(detail)
  {
    GroupTotalsAddUp(detail, key, summary.Keys);
    SumSame(summary.Keys, g => At(summary, g), g => GroupTotal(detail, key, g));
  }

  lemma NoMembers<K(!new), G(!new)>(detail: map<K, int>, key: K -> G, g: G)
    requires forall k :: k in detail ==> key(k) != g
    ensures GroupTotal(detail, key, g) == 0
  {
    assert Group(detail.Keys, key, g) == {};
  }

  /** Every column of the summary is the grouped sum of the same column of the detail. */
  ghost predicate SumsInto<K(!new), G(!new)>(detail: map<K, seq<int>>, key: K -> G, g: G, row: seq<int>) {
    |row| == COLUMNS && forall c :: 0 <= c < COLUMNS ==> row[c] == GroupTotal(Column(detail, c), key, g)
  }

  lemma ZeroRow<K(!new), G(!new)>(detail: map<K, seq<int>>, key: K -> G, g: G, zeroes: seq<int>)
    requires forall k :: k in detail ==> key(k) != g
    requires |zeroes| == COLUMNS && forall c :: 0 <= c < COLUMNS ==> zeroes[c] == 0
    ensures SumsInto(detail, key, g, zeroes)
  {
    forall c | 0 <= c < COLUMNS ensures zeroes[c] == GroupTotal(Column(detail, c), key, g) {
      NoMembers(Column(detail, c), key, g);
    }
  }

  lemma ColumnsAddUp<K(!new), G(!new)>(detail: map<K, seq<int>>, key: K -> G, summary: map<G, seq<int>>)
    requires forall k :: k in detail ==> key(k) in summary
    requires forall g :: g in summary ==> SumsInto(detail, key, g, summary[g])
    ensures forall c :: 0 <= c < COLUMNS ==> Total(Column(summary, c)) == Total(Column(detail, c))
  {
    forall c | 0 <= c < COLUMNS ensures Total(Column(summary, c)) == Total(Column(detail, c)) {
      SummaryAddsUp(Column(detail, c), key, Column(summary, c));
    }
  }

  /**
   * `_rebuild_lifetime` and `_rebuild_section_wide`: zero the summary, then set one row per group of the
   * detail table, column by column.
   */
  method RebuildSummary<K(!new, ==), G(!new, ==)>(detail: map<K, seq<int>>, key: K -> G, table: map<G, seq<int>>)
    returns (summary: map<G, seq<int>>)
    ensures forall g :: g in summary <==> g in table || exists k :: k in detail && key(k) == g
    ensures forall g :: g in summary ==> SumsInto(detail, key, g, summary[g])
    ensures forall c :: 0 <= c < COLUMNS ==> Total(Column(summary, c)) == Total(Column(detail, c))
  {
    var zeroes := seq(COLUMNS, c => 0);
    summary := map g | g in table :: zeroes;
    var groups := set k | k in detail :: key(k);
    var rest := groups;
    ghost var done: set<G> := {};
    while rest != {}
      invariant rest <= groups && done == groups - rest
      invariant summary.Keys == table.Keys + done
      invariant forall g :: g in done ==> SumsInto(detail, key, g, summary[g])
      invariant forall g :: g in summary && g !in done ==> summary[g] == zeroes
      decreases rest
    {
      var g :| g in rest;
      var row := SumRow(detail, key, g);
      summary := summary[g := row];
      rest := rest - {g};
      done := done + {g};
    }
    forall g | g in summary && g !in groups ensures SumsInto(detail, key, g, zeroes) {
      ZeroRow(detail, key, g, zeroes);
    }
    ColumnsAddUp(detail, key, summary);
  }
}
