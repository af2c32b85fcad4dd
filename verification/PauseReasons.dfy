/**
 * From the legacy reason enum to the pause-reason catalog and on to typed system transitions: revisions
 * 49bd666da846, fb10ac7fd439, b58cdffb5ccc, 97b60e06d42a, b4e7a1c93f28 and c8f3d2e60a17.
 */
module PauseReasons {
  import opened Relational
  import opened Collapse

  /** The slugs the revisions name, and every other one. */
  datatype Slug =
    | WaitingForUpholstery | LunchBreak | CoffeeBreak | Meeting | EndedShiftPick | OtherTask | CaseCreated
    | Custom(name: string)

  /** A `pause_reasons` row. */
  datatype Reason = Reason(workspace: Id, name: string, slug: Option<Slug>, isDeleted: bool, systemManaged: bool)

  type Catalog = map<Id, Reason>

  /** A `user_shift_state_records` row, as far as the revisions read it. */
  datatype ShiftRef = ShiftRef(reason: Option<Id>, transition: Option<Transition>, rest: string)

  /** `transition_reason_backfill_journal`: the previous reference of every retyped row. */
  datatype RetypeJournal = RetypeJournal(records: map<Id, Id>, shifts: map<Id, Id>)

  datatype Db = Db(
    workspaces: set<Id>,
    catalog: Catalog,
    legacy: Option<map<Id, Slug>>,     // the legacy `reason` column, where not NULL; None once dropped
    records: map<Id, StepRecord>,
    shifts: map<Id, ShiftRef>,
    declared: map<Id, Option<Id>>,     // user_declared_state_records.pause_reason_id
    journal: Option<RetypeJournal>,
    xorCheck: bool,
    slugsPerWorkspace: bool)

  predicate SlugIs(cat: Catalog, c: Id, s: Slug) {
    c in cat && cat[c].slug == Some(s)
  }

  predicate Held(cat: Catalog, s: Slug) {
    exists c :: c in cat && SlugIs(cat, c, s)
  }

  predicate UniqueSlugs(cat: Catalog) {
    forall c, d :: c in cat && d in cat && cat[c].slug.Some? && cat[c].slug == cat[d].slug ==> c == d
  }

  /** Keys, uniqueness, types and checks that PostgreSQL enforces at every moment of the chain. */
  ghost predicate Consistent(db: Db) {
    && (forall c :: c in db.catalog ==> db.catalog[c].workspace in db.workspaces)
    && (!db.slugsPerWorkspace ==> UniqueSlugs(db.catalog))
    && (forall id :: id in db.records && db.records[id].pauseReason.Some? ==>
        db.records[id].pauseReason.value in db.catalog)
    && (db.legacy.Some? ==> db.legacy.value.Keys <= db.records.Keys)
    && (db.legacy.Some? ==> forall id :: id in db.legacy.value ==> !db.legacy.value[id].Custom?)
    && (db.xorCheck ==> forall id :: id in db.records ==> Xor(db.records[id]))
  }

  // ----- 49bd666da846: seed the six live defaults -----

  const SEEDS: seq<Slug> := [WaitingForUpholstery, LunchBreak, CoffeeBreak, Meeting, EndedShiftPick, OtherTask]
  const REQUIRED: set<Slug> := {WaitingForUpholstery, LunchBreak, CoffeeBreak, Meeting, EndedShiftPick, OtherTask}

  function SeedId(s: Slug): Id {
    match s
    case WaitingForUpholstery => "par_01KY56Z454G1HA63TPPFM182G5"
    case LunchBreak => "par_01KY56Z454ZC6QX1T81M56M1RT"
    case CoffeeBreak => "par_01KY56Z4546T7XKAEEJC4BAX0A"
    case Meeting => "par_01KY56Z454BS2R8ZY3R6TGC0HC"
    case EndedShiftPick => "par_01KY56Z454VX8SQN7MC7FASQB7"
    case OtherTask => "par_01KY56Z454Q36VVTR77B88VWGA"
    case CaseCreated => "par_01KY56Z454TK9W1TB748T173VM"
    case Custom(name) => name
  }

  function SeedName(s: Slug): string {
    match s
    case WaitingForUpholstery => "Waiting for upholstery"
    case LunchBreak => "Lunch break"
    case CoffeeBreak => "Coffee break"
    case Meeting => "Meeting"
    case EndedShiftPick => "Ended shift"
    case OtherTask => "Other task priority"
    case CaseCreated => "Case created"
    case Custom(name) => name
  }

  predicate Clashes(cat: Catalog, id: Id, row: Reason) {
    id in cat || exists c :: c in cat && cat[c].workspace == row.workspace && cat[c].name == row.name
  }

  /** INSERT ... ON CONFLICT (slug) DO NOTHING; None when another unique constraint rejects the row. */
  function InsertReason(cat: Catalog, id: Id, row: Reason): Option<Catalog>
    requires row.slug.Some?
  {
    if Held(cat, row.slug.value) then Some(cat)
    else if Clashes(cat, id, row) then None
    else Some(cat[id := row])
  }

  function SeedRow(workspace: Id, s: Slug): Reason {
    Reason(workspace, SeedName(s), Some(s), false, s == EndedShiftPick || s == OtherTask)
  }

  function SeedAll(cat: Catalog, workspace: Id, seeds: seq<Slug>): Option<Catalog> {
    if seeds == [] then Some(cat)
    else
      var n := |seeds| - 1;
      var before := SeedAll(cat, workspace, seeds[..n]);
      if before.None? then None else InsertReason(before.value, SeedId(seeds[n]), SeedRow(workspace, seeds[n]))
  }

  /** What seeding may do to a catalog: keep every row, and add live rows for slugs nobody held. */
  ghost predicate Grows(before: Catalog, after: Catalog) {
    && (forall c :: c in before ==> c in after && after[c] == before[c])
    && (forall c :: c in after && c !in before ==> after[c].slug.Some? && !after[c].isDeleted)
    && (forall c, d :: c in after && c !in before && d in before ==> after[c].slug != before[d].slug)
  }

  lemma InsertGrows(cat: Catalog, before: Catalog, after: Catalog, id: Id, row: Reason)
    requires Grows(cat, before) && row.slug.Some? && !row.isDeleted
    requires InsertReason(before, id, row) == Some(after)
    ensures Grows(cat, after) && Held(after, row.slug.value)
    ensures UniqueSlugs(before) ==> UniqueSlugs(after)
  {
    var s := row.slug.value;
    if !Held(before, s) {
      assert SlugIs(after, id, s);
      assert forall d :: d in before ==> !SlugIs(before, d, s);
    }
  }

  lemma HeldGrows(before: Catalog, after: Catalog, s: Slug)
    requires Held(before, s) && Grows(before, after)
    ensures Held(after, s)
  {
    var c :| c in before && SlugIs(before, c, s);
    assert SlugIs(after, c, s);
  }

  lemma InsertGrowsFrom(before: Catalog, after: Catalog, id: Id, row: Reason)
    requires row.slug.Some? && !row.isDeleted && InsertReason(before, id, row) == Some(after)
    ensures Grows(before, after)
  {
    InsertGrows(before, before, after, id, row);
  }

  ghost predicate HoldsAll(cat: Catalog, seeds: seq<Slug>) {
    forall k :: 0 <= k < |seeds| ==> Held(cat, seeds[k])
  }

  lemma HoldsOneMore(before: Catalog, after: Catalog, seeds: seq<Slug>)
    requires seeds != [] && Grows(before, after)
    requires HoldsAll(before, seeds[..|seeds| - 1]) && Held(after, seeds[|seeds| - 1])
    ensures HoldsAll(after, seeds)
  {
    var n := |seeds| - 1;
    forall k | 0 <= k < n ensures Held(after, seeds[k]) {
      assert Held(before, seeds[..n][k]);
      HeldGrows(before, after, seeds[k]);
    }
  }

  lemma {:induction false} SeedAllGrows(cat: Catalog, workspace: Id, seeds: seq<Slug>)
    ensures var r := SeedAll(cat, workspace, seeds);
            r.Some? ==> Grows(cat, r.value) && (UniqueSlugs(cat) ==> UniqueSlugs(r.value)) && HoldsAll(r.value, seeds)
  {
    var r := SeedAll(cat, workspace, seeds);
    if seeds != [] && r.Some? {
      var n := |seeds| - 1;
      var id, row := SeedId(seeds[n]), SeedRow(workspace, seeds[n]);
      var before := SeedAll(cat, workspace, seeds[..n]).value;
      SeedAllGrows(cat, workspace, seeds[..n]);
      InsertGrows(cat, before, r.value, id, row);
      InsertGrowsFrom(before, r.value, id, row);
      HoldsOneMore(before, r.value, seeds);
    }
  }

  /** Seeds go to the first workspace found, if any. */
  predicate FirstWorkspace(db: Db, first: Option<Id>) {
    if db.workspaces == {} then first.None? else first.Some? && first.value in db.workspaces
  }

  function Seed(db: Db, first: Option<Id>): Option<Db> {
    if first.None? then Some(db)
    else
      var cat := SeedAll(db.catalog, first.value, SEEDS);
      if cat.None? then None else Some(db.(catalog := cat.value))
  }

  // ----- fb10ac7fd439: gate, anchor, backfill, unmapped check -----

  /** Live catalog rows carrying one of the six required slugs. */
  function LiveRequired(cat: Catalog): set<Id> {
    set c | c in cat && cat[c].slug.Some? && cat[c].slug.value in REQUIRED && !cat[c].isDeleted
  }

  predicate GatePasses(cat: Catalog) {
    |LiveRequired(cat)| == |SEEDS|
  }

  predicate HeldLive(cat: Catalog, s: Slug) {
    exists c :: c in cat && SlugIs(cat, c, s) && !cat[c].isDeleted
  }

  function SlugOr(cat: Catalog, s: Slug): Id -> Slug {
    (c: Id) => if c in cat && cat[c].slug.Some? then cat[c].slug.value else s
  }

  lemma CountedSlugs(cat: Catalog, live: set<Id>, required: set<Slug>)
    requires UniqueSlugs(cat)
    requires forall c :: c in live <==>
               c in cat && cat[c].slug.Some? && cat[c].slug.value in required && !cat[c].isDeleted
    ensures |live| == |required| <==> forall s :: s in required ==> HeldLive(cat, s)
  {
    var slug := SlugOr(cat, OtherTask);
    InjectiveInto(live, required, slug);
    forall s | s in required ensures (exists c :: c in live && slug(c) == s) <==> HeldLive(cat, s) {
      if c :| c in live && slug(c) == s {
        assert SlugIs(cat, c, s);
      }
      if c :| c in cat && SlugIs(cat, c, s) && !cat[c].isDeleted {
        assert c in live && slug(c) == s;
      }
    }
  }

  /** The gate counts rows; with the unique slug index that is the same as every required slug being live. */
  lemma GateMeansAllLive(cat: Catalog)
    requires UniqueSlugs(cat)
    ensures GatePasses(cat) <==> forall s :: s in REQUIRED ==> HeldLive(cat, s)
  {
    assert |REQUIRED| == 6;
    CountedSlugs(cat, LiveRequired(cat), REQUIRED);
  }

  function AnchorRow(workspace: Id): Reason {
    Reason(workspace, SeedName(CaseCreated), Some(CaseCreated), true, false)
  }

  function AddAnchor(cat: Catalog, first: Option<Id>): Option<Catalog> {
    if first.None? then Some(cat) else InsertReason(cat, SeedId(CaseCreated), AnchorRow(first.value))
  }

  function Holder(cat: Catalog, s: Slug): (c: Id)
    requires UniqueSlugs(cat) && Held(cat, s)
    ensures SlugIs(cat, c, s)
  {
    var c :| c in cat && SlugIs(cat, c, s);
    c
  }

  /** UPDATE ... SET pause_reason_id = pr.client_id FROM pause_reasons pr WHERE pr.slug = reason. */
  function BackfillRow(cat: Catalog, legacy: map<Id, Slug>, id: Id, r: StepRecord): StepRecord
    requires UniqueSlugs(cat)
  {
    if id in legacy && Held(cat, legacy[id]) then r.(pauseReason := Some(Holder(cat, legacy[id]))) else r
  }

  function BackfillRecords(cat: Catalog, legacy: map<Id, Slug>, records: map<Id, StepRecord>): map<Id, StepRecord>
    requires UniqueSlugs(cat)
  {
    map id | id in records :: BackfillRow(cat, legacy, id, records[id])
  }

  predicate Unmapped(legacy: map<Id, Slug>, records: map<Id, StepRecord>) {
    exists id :: id in legacy && id in records && records[id].pauseReason.None?
  }

  /** The new column starts out NULL in every row. */
  function BlankColumn(records: map<Id, StepRecord>): map<Id, StepRecord> {
    map id | id in records :: records[id].(pauseReason := None)
  }

  /** What the backfill revision does when it is accepted. */
  ghost predicate Backfills(db: Db, first: Option<Id>, after: Db) {
    && db.legacy.Some? && GatePasses(db.catalog) && UniqueSlugs(after.catalog)
    && AddAnchor(db.catalog, first) == Some(after.catalog)
    && after == db.(catalog := after.catalog,
                    records := BackfillRecords(after.catalog, db.legacy.value, BlankColumn(db.records)))
    && !Unmapped(db.legacy.value, after.records)
  }

  lemma AnchorKeepsUnique(cat: Catalog, first: Option<Id>, after: Catalog)
    requires UniqueSlugs(cat) && AddAnchor(cat, first) == Some(after)
    ensures UniqueSlugs(after)
    ensures forall c :: c in cat ==> c in after && after[c] == cat[c]
    ensures first.Some? ==> Held(after, CaseCreated)
  {
    if first.Some? && !Held(cat, CaseCreated) {
      assert SlugIs(after, SeedId(CaseCreated), CaseCreated);
      assert forall d :: d in cat ==> !SlugIs(cat, d, CaseCreated);
    }
  }

  /** The anchor goes in soft-deleted, not managed, under its own slug, so no picker ever offers it. */
  lemma AnchorMeans(cat: Catalog, workspace: Id, after: Catalog, c: Id)
    requires AddAnchor(cat, Some(workspace)) == Some(after) && c in after && c !in cat
    ensures after[c].slug == Some(CaseCreated) && after[c].isDeleted && !after[c].systemManaged
    ensures after[c].workspace == workspace
  {
  }

  lemma LegacyValueHeld(cat: Catalog, first: Option<Id>, after: Catalog, s: Slug)
    requires UniqueSlugs(cat) && GatePasses(cat) && AddAnchor(cat, first) == Some(after) && first.Some? && !s.Custom?
    ensures Held(after, s)
  {
    AnchorKeepsUnique(cat, first, after);
    if s != CaseCreated {
      GateMeansAllLive(cat);
      assert s in REQUIRED;
      var c :| c in cat && SlugIs(cat, c, s) && !cat[c].isDeleted;
      assert SlugIs(after, c, s);
    }
  }

  /** Behind the gate the unmapped check cannot fire: every legacy value has a catalog row to point at. */
  lemma UnmappedIsUnreachable(db: Db, first: Option<Id>, after: Catalog)
    requires Consistent(db) && !db.slugsPerWorkspace && db.legacy.Some? && FirstWorkspace(db, first)
    requires GatePasses(db.catalog) && AddAnchor(db.catalog, first) == Some(after) && UniqueSlugs(after)
    ensures !Unmapped(db.legacy.value, BackfillRecords(after, db.legacy.value, BlankColumn(db.records)))
  {
    assert first.Some? by {
      assert LiveRequired(db.catalog) != {};
      var c :| c in LiveRequired(db.catalog);
      assert db.catalog[c].workspace in db.workspaces;
    }
    var rows := BackfillRecords(after, db.legacy.value, BlankColumn(db.records));
    forall id | id in db.legacy.value && id in rows ensures rows[id].pauseReason.Some? {
      LegacyValueHeld(db.catalog, first, after, db.legacy.value[id]);
    }
  }

  /** A default slug is held by a soft-deleted row. */
  predicate DefaultRetired(cat: Catalog) {
    exists c :: c in cat && cat[c].slug.Some? && cat[c].slug.value in REQUIRED && cat[c].isDeleted
  }

  lemma GateAfterGrowth(cat: Catalog, after: Catalog)
    requires Grows(cat, after) && UniqueSlugs(after)
    requires forall s :: s in REQUIRED ==> Held(after, s)
    ensures GatePasses(after) <==> !DefaultRetired(cat)
  {
    GateMeansAllLive(after);
    if DefaultRetired(cat) {
      var c :| c in cat && cat[c].slug.Some? && cat[c].slug.value in REQUIRED && cat[c].isDeleted;
      assert SlugIs(after, c, cat[c].slug.value);
      assert !HeldLive(after, cat[c].slug.value);
    } else {
      forall s | s in REQUIRED ensures HeldLive(after, s) {
        var c :| c in after && SlugIs(after, c, s);
        assert !after[c].isDeleted;
      }
    }
  }

  // ----- when seeding alone opens the gate -----

  /** The seed of this slug would be rejected: nobody holds the slug, but its id or its name is taken. */
  predicate SeedBlocked(cat: Catalog, workspace: Id, s: Slug) {
    !Held(cat, s) && Clashes(cat, SeedId(s), SeedRow(workspace, s))
  }

  /** No two seeds share a slug, an id or a name. */
  ghost predicate DistinctSeeds(seeds: seq<Slug>) {
    forall j, k :: 0 <= j < k < |seeds| ==>
      seeds[j] != seeds[k] && SeedId(seeds[j]) != SeedId(seeds[k]) && SeedName(seeds[j]) != SeedName(seeds[k])
  }

  /** The fifteenth letter of a default's id and the first of its name. */
  lemma SeedMarks(s: Slug)
    requires s in REQUIRED
    ensures |SeedId(s)| > 14 && |SeedName(s)| > 0
    ensures SeedId(s)[14] == match s
            case WaitingForUpholstery => 'G' case LunchBreak => 'Z' case CoffeeBreak => '6'
            case Meeting => 'B' case EndedShiftPick => 'V' case _ => 'Q'
    ensures SeedName(s)[0] == match s
            case WaitingForUpholstery => 'W' case LunchBreak => 'L' case CoffeeBreak => 'C'
            case Meeting => 'M' case EndedShiftPick => 'E' case _ => 'O'
  {
  }

  lemma SeedsDiffer(s: Slug, r: Slug)
    requires s in REQUIRED && r in REQUIRED && s != r
    ensures SeedId(s) != SeedId(r) && SeedName(s) != SeedName(r)
  {
    SeedMarks(s);
    SeedMarks(r);
  }

  lemma SeedsAreDistinct()
    ensures DistinctSeeds(SEEDS)
  {
    forall j, k | 0 <= j < k < |SEEDS| ensures
      SEEDS[j] != SEEDS[k] && SeedId(SEEDS[j]) != SeedId(SEEDS[k]) && SeedName(SEEDS[j]) != SeedName(SEEDS[k])
    {
      SeedsDiffer(SEEDS[j], SEEDS[k]);
    }
  }

  /** Every row seeding added is one of the seeds. */
  ghost predicate AddsSeeds(before: Catalog, after: Catalog, workspace: Id, seeds: seq<Slug>) {
    forall c :: c in after && c !in before ==>
      exists k :: 0 <= k < |seeds| && c == SeedId(seeds[k]) && after[c] == SeedRow(workspace, seeds[k])
  }

  /** None of the seeds already added has the slug, the id or the name of `s`. */
  lemma AddedAreOthers(cat: Catalog, grown: Catalog, workspace: Id, seeds: seq<Slug>, s: Slug, c: Id)
    requires AddsSeeds(cat, grown, workspace, seeds) && c in grown && c !in cat
    requires forall k :: 0 <= k < |seeds| ==>
               seeds[k] != s && SeedId(seeds[k]) != SeedId(s) && SeedName(seeds[k]) != SeedName(s)
    ensures c != SeedId(s) && grown[c].slug != Some(s) && grown[c].name != SeedName(s)
  {
    var k :| 0 <= k < |seeds| && c == SeedId(seeds[k]) && grown[c] == SeedRow(workspace, seeds[k]);
  }

  lemma SameObstacles(cat: Catalog, grown: Catalog, s: Slug, id: Id, row: Reason)
    requires Grows(cat, grown)
    requires forall c :: c in grown && c !in cat ==> c != id && grown[c].slug != Some(s) && grown[c].name != row.name
    ensures Held(grown, s) <==> Held(cat, s)
    ensures Clashes(grown, id, row) <==> Clashes(cat, id, row)
  {
    if Held(cat, s) {
      HeldGrows(cat, grown, s);
    }
    assert forall c :: c in cat ==> grown[c] == cat[c];
  }

  /** A seed that differs from those already added meets exactly the obstacles it would have met before them. */
  lemma ObstaclesStay(cat: Catalog, grown: Catalog, workspace: Id, seeds: seq<Slug>, s: Slug)
    requires Grows(cat, grown) && AddsSeeds(cat, grown, workspace, seeds)
    requires forall k :: 0 <= k < |seeds| ==>
               seeds[k] != s && SeedId(seeds[k]) != SeedId(s) && SeedName(seeds[k]) != SeedName(s)
    ensures Held(grown, s) <==> Held(cat, s)
    ensures Clashes(grown, SeedId(s), SeedRow(workspace, s)) <==> Clashes(cat, SeedId(s), SeedRow(workspace, s))
  {
    forall c | c in grown && c !in cat
      ensures c != SeedId(s) && grown[c].slug != Some(s) && grown[c].name != SeedName(s)
    {
      AddedAreOthers(cat, grown, workspace, seeds, s, c);
    }
    SameObstacles(cat, grown, s, SeedId(s), SeedRow(workspace, s));
  }

  lemma AddsOneMore(cat: Catalog, before: Catalog, after: Catalog, workspace: Id, seeds: seq<Slug>)
    requires seeds != [] && AddsSeeds(cat, before, workspace, seeds[..|seeds| - 1])
    requires var s := seeds[|seeds| - 1]; InsertReason(before, SeedId(s), SeedRow(workspace, s)) == Some(after)
    ensures AddsSeeds(cat, after, workspace, seeds)
  {
    var n := |seeds| - 1;
    forall c | c in after && c !in cat
      ensures exists k :: 0 <= k < |seeds| && c == SeedId(seeds[k]) && after[c] == SeedRow(workspace, seeds[k])
    {
      if c in before && after[c] == before[c] {
        var k :| 0 <= k < n && c == SeedId(seeds[..n][k]) && before[c] == SeedRow(workspace, seeds[..n][k]);
        assert c == SeedId(seeds[k]);
      } else {
        assert c == SeedId(seeds[n]);
      }
    }
  }

  ghost predicate NoneBlocked(cat: Catalog, workspace: Id, seeds: seq<Slug>) {
    forall k :: 0 <= k < |seeds| ==> !SeedBlocked(cat, workspace, seeds[k])
  }

  lemma LastBlocked(cat: Catalog, workspace: Id, seeds: seq<Slug>)
    requires seeds != []
    ensures var n := |seeds| - 1;
            NoneBlocked(cat, workspace, seeds) <==>
                NoneBlocked(cat, workspace, seeds[..n]) && !SeedBlocked(cat, workspace, seeds[n])
  {
    var n := |seeds| - 1;
    assert forall k :: 0 <= k < n ==> seeds[..n][k] == seeds[k];
  }

  lemma LastSeed(cat: Catalog, grown: Catalog, workspace: Id, seeds: seq<Slug>)
    requires seeds != [] && DistinctSeeds(seeds)
    requires Grows(cat, grown) && AddsSeeds(cat, grown, workspace, seeds[..|seeds| - 1])
    ensures var s := seeds[|seeds| - 1];
            var r := InsertReason(grown, SeedId(s), SeedRow(workspace, s));
            (r.Some? <==> !SeedBlocked(cat, workspace, s)) && (r.Some? ==> AddsSeeds(cat, r.value, workspace, seeds))
  {
    var n := |seeds| - 1;
    var s := seeds[n];
    ObstaclesStay(cat, grown, workspace, seeds[..n], s);
    var r := InsertReason(grown, SeedId(s), SeedRow(workspace, s));
    if r.Some? {
      AddsOneMore(cat, grown, r.value, workspace, seeds);
    }
  }

  /** Seeding goes through exactly when no seed is blocked in the catalog it starts from. */
  lemma {:induction false} SeedingGoesThrough(cat: Catalog, workspace: Id, seeds: seq<Slug>)
    requires DistinctSeeds(seeds)
    ensures SeedAll(cat, workspace, seeds).Some? <==> NoneBlocked(cat, workspace, seeds)
    ensures var r := SeedAll(cat, workspace, seeds); r.Some? ==> AddsSeeds(cat, r.value, workspace, seeds)
  {
    if seeds != [] {
      var n := |seeds| - 1;
      SeedingGoesThrough(cat, workspace, seeds[..n]);
      LastBlocked(cat, workspace, seeds);
      var r := SeedAll(cat, workspace, seeds[..n]);
      if r.Some? {
        SeedAllGrows(cat, workspace, seeds[..n]);
        LastSeed(cat, r.value, workspace, seeds);
      }
    }
  }

  lemma AddedRow(cat: Catalog, after: Catalog, workspace: Id, seeds: seq<Slug>, c: Id)
    requires AddsSeeds(cat, after, workspace, seeds) && c in after && c !in cat
    ensures after[c].slug.Some? && after[c].slug.value in seeds && !after[c].isDeleted
              && after[c].workspace == workspace
    ensures after[c].systemManaged <==> after[c].slug.value.EndedShiftPick? || after[c].slug.value.OtherTask?
  {
    var k :| 0 <= k < |seeds| && c == SeedId(seeds[k]) && after[c] == SeedRow(workspace, seeds[k]);
  }

  lemma SeedsAreRequired()
    ensures forall s :: s in REQUIRED <==> s in SEEDS
  {
  }

  /**
   * Every seeded row is live, in the workspace, under a default's slug, and managed exactly for the two
   * system defaults.
   */
  lemma SeededRowMeans(cat: Catalog, workspace: Id, after: Catalog, c: Id)
    requires SeedAll(cat, workspace, SEEDS) == Some(after) && c in after && c !in cat
    ensures after[c].workspace == workspace && !after[c].isDeleted && after[c].slug.Some?
    ensures after[c].slug.value in REQUIRED
    ensures after[c].systemManaged <==> after[c].slug.value.EndedShiftPick? || after[c].slug.value.OtherTask?
  {
    SeedsAreDistinct();
    SeedsAreRequired();
    SeedingGoesThrough(cat, workspace, SEEDS);
    AddedRow(cat, after, workspace, SEEDS, c);
  }

  /** Some default cannot be seeded into this workspace. */
  predicate SomeSeedBlocked(cat: Catalog, workspace: Id) {
    exists s :: s in REQUIRED && SeedBlocked(cat, workspace, s)
  }

  lemma BlockedSomewhere(cat: Catalog, workspace: Id, seeds: seq<Slug>, required: set<Slug>)
    requires forall s :: s in required <==> s in seeds
    ensures NoneBlocked(cat, workspace, seeds) <==> !exists s :: s in required && SeedBlocked(cat, workspace, s)
  {
    if s :| s in required && SeedBlocked(cat, workspace, s) {
      var k :| 0 <= k < |seeds| && seeds[k] == s;
      assert SeedBlocked(cat, workspace, seeds[k]);
    }
  }

  /** A default is blocked when nobody has its slug and its id is taken, or its name in that very workspace. */
  lemma BlockedMeans(cat: Catalog, workspace: Id, s: Slug)
    ensures SeedBlocked(cat, workspace, s) <==>
              && (forall c :: c in cat ==> cat[c].slug != Some(s))
              && (|| SeedId(s) in cat
                  || exists c :: c in cat && cat[c].workspace == workspace && cat[c].name == SeedName(s))
  {
    if forall c :: c in cat ==> cat[c].slug != Some(s) {
      assert !Held(cat, s);
    } else {
      var c :| c in cat && cat[c].slug == Some(s);
      assert SlugIs(cat, c, s);
    }
  }

  lemma SeedSucceeds(cat: Catalog, workspace: Id)
    ensures SeedAll(cat, workspace, SEEDS).Some? <==> !SomeSeedBlocked(cat, workspace)
  {
    SeedsAreDistinct();
    SeedsAreRequired();
    SeedingGoesThrough(cat, workspace, SEEDS);
    BlockedSomewhere(cat, workspace, SEEDS, REQUIRED);
  }

  lemma AllHeld(cat: Catalog, seeds: seq<Slug>, required: set<Slug>)
    requires HoldsAll(cat, seeds) && forall s :: s in required ==> s in seeds
    ensures forall s :: s in required ==> Held(cat, s)
  {
    forall s | s in required ensures Held(cat, s) {
      var k :| 0 <= k < |seeds| && seeds[k] == s;
      assert Held(cat, seeds[k]);
    }
  }

  lemma SeededCatalogGate(cat: Catalog, workspace: Id, after: Catalog)
    requires UniqueSlugs(cat) && SeedAll(cat, workspace, SEEDS) == Some(after)
    ensures GatePasses(after) <==> !DefaultRetired(cat)
  {
    SeedAllGrows(cat, workspace, SEEDS);
    SeedsAreRequired();
    AllHeld(after, SEEDS, REQUIRED);
    GateAfterGrowth(cat, after);
  }

  /** What the seed revision leaves lets the next revision start. */
  predicate SeedOpensGate(db: Db, first: Option<Id>) {
    var after := Seed(db, first);
    after.Some? && GatePasses(after.value.catalog)
  }

  lemma NoWorkspaceNoReasons(db: Db)
    requires Consistent(db) && db.workspaces == {}
    ensures !GatePasses(db.catalog)
  {
    assert LiveRequired(db.catalog) == {};
  }

  /**
   * Upgrading alone is self-sufficient exactly when there is a workspace, no default slug is held by a
   * soft-deleted row, and no default that is still missing has its id or its name in the first workspace taken.
   */
  lemma SeedingOpensTheGate(db: Db, first: Option<Id>)
    requires Consistent(db) && !db.slugsPerWorkspace && FirstWorkspace(db, first)
    ensures SeedOpensGate(db, first) <==>
              first.Some? && !DefaultRetired(db.catalog) && !SomeSeedBlocked(db.catalog, first.value)
  {
    if first.None? {
      NoWorkspaceNoReasons(db);
    } else {
      SeedSucceeds(db.catalog, first.value);
      var cat := SeedAll(db.catalog, first.value, SEEDS);
      if cat.Some? {
        SeededCatalogGate(db.catalog, first.value, cat.value);
      }
    }
  }

  /** A database with one workspace and these pause reasons. */
  function SmallDb(workspaces: set<Id>, cat: Catalog): Db {
    Db(workspaces, cat, Some(map[]), map[], map[], map[], None, false, false)
  }

  /** The self-sufficiency claim fails over a soft-deleted default: the seed skips it and the gate stays shut. */
  lemma RetiredDefaultKeepsGateShut(workspace: Id, c: Id, name: string)
    ensures var db := SmallDb({workspace}, map[c := Reason(workspace, name, Some(LunchBreak), true, false)]);
            Consistent(db) && FirstWorkspace(db, Some(workspace)) && !SeedOpensGate(db, Some(workspace))
  {
    var db := SmallDb({workspace}, map[c := Reason(workspace, name, Some(LunchBreak), true, false)]);
    assert db.catalog[c].slug == Some(LunchBreak);
    assert DefaultRetired(db.catalog);
    SeedingOpensTheGate(db, Some(workspace));
  }

  /** It fails over a row without a slug that already has a default's name: the insert is rejected. */
  lemma TakenNameRejectsTheSeed(workspace: Id, c: Id)
    ensures var db := SmallDb({workspace}, map[c := Reason(workspace, SeedName(LunchBreak), None, false, false)]);
            Consistent(db) && FirstWorkspace(db, Some(workspace)) && Seed(db, Some(workspace)).None?
  {
    var db := SmallDb({workspace}, map[c := Reason(workspace, SeedName(LunchBreak), None, false, false)]);
    var cat := db.catalog;
    assert cat[c].workspace == workspace && cat[c].name == SeedRow(workspace, LunchBreak).name;
    assert SeedBlocked(cat, workspace, LunchBreak);
    SeedSucceeds(cat, workspace);
  }

  /** It fails without a workspace: the seed does nothing. */
  lemma NoWorkspaceKeepsGateShut()
    ensures var db := SmallDb({}, map[]); Consistent(db) && FirstWorkspace(db, None) && !SeedOpensGate(db, None)
  {
    SeedingOpensTheGate(SmallDb({}, map[]), None);
  }

  // ----- b58cdffb5ccc: drop the legacy column -----

  function DropLegacy(db: Db): Db {
    db.(legacy := None)
  }

  // ----- 97b60e06d42a: retype system pauses by slug -----

  predicate Refers(cat: Catalog, ref: Option<Id>, s: Slug) {
    ref.Some? && SlugIs(cat, ref.value, s)
  }

  function RetypeRecord(cat: Catalog, r: StepRecord): StepRecord {
    if Refers(cat, r.pauseReason, OtherTask) && r.transition.None?
    then r.(transition := Some(OtherTaskPriority), pauseReason := None) else r
  }

  function RetypeShift(cat: Catalog, r: ShiftRef): ShiftRef {
    if Refers(cat, r.reason, OtherTask) && r.transition.None?
    then r.(transition := Some(OtherTaskPriority), reason := None) else r
  }

  function RetypeRecords(cat: Catalog, rows: map<Id, StepRecord>): map<Id, StepRecord> {
    map id | id in rows :: RetypeRecord(cat, rows[id])
  }

  function RetypeShifts(cat: Catalog, rows: map<Id, ShiftRef>): map<Id, ShiftRef> {
    map id | id in rows :: RetypeShift(cat, rows[id])
  }

  /** A row carries both the retired reference and a transition reason; rewriting it would destroy one of them. */
  predicate Conflicted(db: Db) {
    || (exists id :: && id in db.records
                     && Refers(db.catalog, db.records[id].pauseReason, OtherTask)
                     && db.records[id].transition.Some?)
    || (exists id :: && id in db.shifts
                     && Refers(db.catalog, db.shifts[id].reason, OtherTask)
                     && db.shifts[id].transition.Some?)
  }

  function RecordRefs(db: Db): map<Id, Id> {
    map id | id in db.records && Refers(db.catalog, db.records[id].pauseReason, OtherTask)
        && db.records[id].transition.None? ::
      db.records[id].pauseReason.value
  }

  function ShiftRefs(db: Db): map<Id, Id> {
    map id | id in db.shifts && Refers(db.catalog, db.shifts[id].reason, OtherTask) && db.shifts[id].transition.None? ::
      db.shifts[id].reason.value
  }

  function JournalOf(db: Db): RetypeJournal {
    if db.journal.Some? then db.journal.value else RetypeJournal(map[], map[])
  }

  function Retyped(db: Db): Db {
    db.(records := RetypeRecords(db.catalog, db.records),
        shifts := RetypeShifts(db.catalog, db.shifts),
        journal := Some(RetypeJournal(RecordRefs(db) + JournalOf(db).records, ShiftRefs(db) + JournalOf(db).shifts)))
  }

  function RecordsReferring(db: Db, s: Slug): set<Id> {
    set id | id in db.records && Refers(db.catalog, db.records[id].pauseReason, s)
  }

  function ShiftsReferring(db: Db, s: Slug): set<Id> {
    set id | id in db.shifts && Refers(db.catalog, db.shifts[id].reason, s)
  }

  /** The four populations the revision promises not to touch. */
  function GuardedCounts(db: Db): (nat, nat, nat, nat) {
    (|RecordsReferring(db, EndedShiftPick)|,
     |RecordsReferring(db, CaseCreated)|,
     |ShiftsReferring(db, EndedShiftPick) + ShiftsReferring(db, CaseCreated)|,
     |db.declared|)
  }

  function Remaining(db: Db): nat {
    |RecordsReferring(db, OtherTask)| + |ShiftsReferring(db, OtherTask)|
  }

  /**
   * The four guarded figures: step records under either guarded slug, shift rows under one of the two,
   * declared rows.
   */
  lemma GuardedMeans(db: Db)
    ensures GuardedCounts(db) ==
              (|set id | id in db.records && Refers(db.catalog, db.records[id].pauseReason, EndedShiftPick)|,
               |set id | id in db.records && Refers(db.catalog, db.records[id].pauseReason, CaseCreated)|,
               |set id | id in db.shifts && (|| Refers(db.catalog, db.shifts[id].reason, EndedShiftPick)
                                             || Refers(db.catalog, db.shifts[id].reason, CaseCreated))|,
               |db.declared.Keys|)
  {
    var either := set id | id in db.shifts && (|| Refers(db.catalog, db.shifts[id].reason, EndedShiftPick)
                                               || Refers(db.catalog, db.shifts[id].reason, CaseCreated));
    assert either == ShiftsReferring(db, EndedShiftPick) + ShiftsReferring(db, CaseCreated);
    assert |db.declared| == |db.declared.Keys|;
  }

  /** Retyping moves no row into or out of another slug's population, whatever the database holds. */
  lemma OtherSlugsUntouched(db: Db, s: Slug)
    requires s != OtherTask
    ensures RecordsReferring(Retyped(db), s) == RecordsReferring(db, s)
    ensures ShiftsReferring(Retyped(db), s) == ShiftsReferring(db, s)
  {
  }

  /** What becomes of each shift row, told from its old columns and the catalog. */
  lemma RetypedShift(db: Db, id: Id)
    ensures Retyped(db).shifts.Keys == db.shifts.Keys
    ensures id in db.shifts ==>
              var was, is' := db.shifts[id], Retyped(db).shifts[id];
              if && was.transition.None? && was.reason.Some? && was.reason.value in db.catalog
                 && db.catalog[was.reason.value].slug == Some(OtherTask)
              then is' == ShiftRef(None, Some(OtherTaskPriority), was.rest)
              else is' == was
  {
  }

  /** And of each step record. */
  lemma RetypedRecord(db: Db, id: Id)
    ensures Retyped(db).records.Keys == db.records.Keys
    ensures id in db.records ==>
              var was, is' := db.records[id], Retyped(db).records[id];
              if && was.transition.None? && was.pauseReason.Some? && was.pauseReason.value in db.catalog
                 && db.catalog[was.pauseReason.value].slug == Some(OtherTask)
              then is' == StepRecord(was.state, Some(OtherTaskPriority), None, was.rest)
              else is' == was
  {
  }

  /** Both journals list exactly the rewritten rows, each with the reference it lost. */
  lemma RetypeJournalTells(db: Db, id: Id)
    requires db.journal.None?
    ensures var j := Retyped(db).journal;
            && j.Some?
            && (id in j.value.records <==> id in db.records && Retyped(db).records[id] != db.records[id])
            && (id in j.value.shifts <==> id in db.shifts && Retyped(db).shifts[id] != db.shifts[id])
            && (id in j.value.records ==> db.records[id].pauseReason == Some(j.value.records[id]))
            && (id in j.value.shifts ==> db.shifts[id].reason == Some(j.value.shifts[id]))
  {
    var j := Retyped(db).journal.value;
    assert j.records == RecordRefs(db) && j.shifts == ShiftRefs(db);
    if id in db.records {
      assert Retyped(db).records[id] == RetypeRecord(db.catalog, db.records[id]);
    }
    if id in db.shifts {
      assert Retyped(db).shifts[id] == RetypeShift(db.catalog, db.shifts[id]);
    }
  }

  /** The retyping refuses exactly over a row that refers to the retired slug and carries a transition. */
  lemma ConflictMeans(db: Db)
    ensures Conflicted(db) <==>
              || (exists id :: && id in db.records
                               && db.records[id].transition.Some? && db.records[id].pauseReason.Some?
                               && SlugIs(db.catalog, db.records[id].pauseReason.value, OtherTask))
              || (exists id :: && id in db.shifts && db.shifts[id].transition.Some? && db.shifts[id].reason.Some?
                               && SlugIs(db.catalog, db.shifts[id].reason.value, OtherTask))
  {
  }

  /**
   * Both self-checks are unreachable: the guarded counts never move, and past the conflict check nothing
   * still refers to the slug.
   */
  lemma RetypeSelfChecks(db: Db)
    ensures GuardedCounts(Retyped(db)) == GuardedCounts(db)
    ensures !Conflicted(db) ==> Remaining(Retyped(db)) == 0
  {
    OtherSlugsUntouched(db, EndedShiftPick);
    OtherSlugsUntouched(db, CaseCreated);
    if !Conflicted(db) {
      assert RecordsReferring(Retyped(db), OtherTask) == {};
      assert ShiftsReferring(Retyped(db), OtherTask) == {};
    }
  }

  lemma SettledStays(db: Db)
    requires db.journal.Some? && RecordRefs(db) == map[] && ShiftRefs(db) == map[]
    requires RetypeRecords(db.catalog, db.records) == db.records && RetypeShifts(db.catalog, db.shifts) == db.shifts
    ensures Retyped(db) == db
  {
    assert map[] + db.journal.value.records == db.journal.value.records;
    assert map[] + db.journal.value.shifts == db.journal.value.shifts;
  }

  lemma RetypedRecordsAreSettled(db: Db)
    ensures RecordRefs(Retyped(db)) == map[]
    ensures RetypeRecords(db.catalog, Retyped(db).records) == Retyped(db).records
  {
  }

  lemma RetypedShiftsAreSettled(db: Db)
    ensures ShiftRefs(Retyped(db)) == map[]
    ensures RetypeShifts(db.catalog, Retyped(db).shifts) == Retyped(db).shifts
  {
  }

  /** Running the statements a second time changes nothing, journal included. */
  lemma RetypeIsIdempotent(db: Db)
    ensures Retyped(Retyped(db)) == Retyped(db)
  {
    var once := Retyped(db);
    RetypedRecordsAreSettled(db);
    RetypedShiftsAreSettled(db);
    SettledStays(once);
  }

  function PutRecordRef(ref: Id, r: StepRecord): StepRecord {
    r.(pauseReason := Some(ref), transition := None)
  }

  function PutShiftRef(ref: Id, r: ShiftRef): ShiftRef {
    r.(reason := Some(ref), transition := None)
  }

  function Unretyped(db: Db): Db
    requires db.journal.Some?
  {
    db.(records := Restore(db.records, db.journal.value.records, PutRecordRef),
        shifts := Restore(db.shifts, db.journal.value.shifts, PutShiftRef),
        journal := None)
  }

  /** Application traffic on the records, the shifts and the catalog. */
  function Traffic(db: Db, recordWrites: seq<Write<StepRecord>>, shiftWrites: seq<Write<ShiftRef>>,
                   catalogWrites: seq<Write<Reason>>): Db
  {
    db.(records := Run(recordWrites, db.records), shifts := Run(shiftWrites, db.shifts),
        catalog := Run(catalogWrites, db.catalog))
  }

  lemma RetypeRecordsJournaled(db: Db)
    ensures Records(db.records, Retyped(db).records, RecordRefs(db), PutRecordRef)
  {
  }

  lemma RetypeShiftsJournaled(db: Db)
    ensures Records(db.shifts, Retyped(db).shifts, ShiftRefs(db), PutShiftRef)
  {
  }

  /** Exact reversibility of the retyping in both tables, amid later rows of the very same shape. */
  lemma RetypeIsReversible(db: Db, recordWrites: seq<Write<StepRecord>>, shiftWrites: seq<Write<ShiftRef>>,
                           catalogWrites: seq<Write<Reason>>)
    requires db.journal.None?
    requires Avoids(recordWrites, RecordRefs(db).Keys) && Avoids(shiftWrites, ShiftRefs(db).Keys)
    ensures Unretyped(Traffic(Retyped(db), recordWrites, shiftWrites, catalogWrites))
         == Traffic(db, recordWrites, shiftWrites, catalogWrites)
  {
    var after := Retyped(db);
    var j := after.journal.value;
    assert j.records == RecordRefs(db) && j.shifts == ShiftRefs(db);
    RetypeRecordsJournaled(db);
    RetypeShiftsJournaled(db);
    UndoCommutes(recordWrites, db.records, after.records, j.records, PutRecordRef);
    UndoCommutes(shiftWrites, db.shifts, after.shifts, j.shifts, PutShiftRef);
  }

  /** Every retyped row that is still there refers to its old catalog row and carries no transition. */
  predicate RecordsAsBefore(now: map<Id, StepRecord>, refs: map<Id, Id>) {
    forall id :: id in now && id in refs ==> now[id].pauseReason == Some(refs[id]) && now[id].transition.None?
  }

  predicate ShiftsAsBefore(now: map<Id, ShiftRef>, refs: map<Id, Id>) {
    forall id :: id in now && id in refs ==> now[id].reason == Some(refs[id]) && now[id].transition.None?
  }

  lemma RecordsAgree(now: map<Id, StepRecord>, refs: map<Id, Id>)
    ensures Agrees(now, refs, PutRecordRef) <==> RecordsAsBefore(now, refs)
  {
  }

  lemma ShiftsAgree(now: map<Id, ShiftRef>, refs: map<Id, Id>)
    ensures Agrees(now, refs, PutShiftRef) <==> ShiftsAsBefore(now, refs)
  {
  }

  /**
   * Over any traffic: the downgrade undoes the retyping if and only if the retyped rows still present say
   * again what they said.
   */
  lemma RetypeRestoresExactly(db: Db, recordWrites: seq<Write<StepRecord>>, shiftWrites: seq<Write<ShiftRef>>,
                              catalogWrites: seq<Write<Reason>>)
    requires db.journal.None?
    ensures var later := Traffic(db, recordWrites, shiftWrites, catalogWrites);
            Unretyped(Traffic(Retyped(db), recordWrites, shiftWrites, catalogWrites)) == later <==>
              RecordsAsBefore(later.records, RecordRefs(db)) && ShiftsAsBefore(later.shifts, ShiftRefs(db))
  {
    var after := Retyped(db);
    var j := after.journal.value;
    assert j.records == RecordRefs(db) && j.shifts == ShiftRefs(db);
    RetypeRecordsJournaled(db);
    RetypeShiftsJournaled(db);
    UndoExactly(recordWrites, db.records, after.records, j.records, PutRecordRef);
    UndoExactly(shiftWrites, db.shifts, after.shifts, j.shifts, PutShiftRef);
    RecordsAgree(Run(recordWrites, db.records), j.records);
    ShiftsAgree(Run(shiftWrites, db.shifts), j.shifts);
  }

  /** The foreign key rejects the downgrade: a reference it would put back has lost its catalog row. */
  predicate RestoreDangles(db: Db)
    requires db.journal.Some?
  {
    exists id :: id in db.records && id in db.journal.value.records && db.journal.value.records[id] !in db.catalog
  }

  /**
   * In such a run the downgrade is accepted exactly when the catalog still holds every row a journaled
   * record pointed at.
   */
  lemma RetypeReversalIsAccepted(db: Db, recordWrites: seq<Write<StepRecord>>, shiftWrites: seq<Write<ShiftRef>>,
                                 catalogWrites: seq<Write<Reason>>)
    requires db.journal.None? && Avoids(recordWrites, RecordRefs(db).Keys)
    ensures RestoreDangles(Traffic(Retyped(db), recordWrites, shiftWrites, catalogWrites)) <==>
              exists id :: id in db.records && Refers(db.catalog, db.records[id].pauseReason, OtherTask)
                        && db.records[id].transition.None?
                        && db.records[id].pauseReason.value !in Run(catalogWrites, db.catalog)
  {
    var later := Traffic(Retyped(db), recordWrites, shiftWrites, catalogWrites);
    assert later.journal.value.records == RecordRefs(db);
    RunKeeps(recordWrites, Retyped(db).records, RecordRefs(db).Keys);
    assert forall id :: id in RecordRefs(db) ==> id in later.records;
    if id :| id in db.records && Refers(db.catalog, db.records[id].pauseReason, OtherTask)
             && db.records[id].transition.None?
             && db.records[id].pauseReason.value !in Run(catalogWrites, db.catalog) {
      assert id in RecordRefs(db) && later.journal.value.records[id] !in later.catalog;
    }
  }

  /** As long as the catalog keeps its rows the downgrade is accepted, whatever else happened. */
  lemma KeptCatalogIsEnough(db: Db, recordWrites: seq<Write<StepRecord>>, shiftWrites: seq<Write<ShiftRef>>,
                            catalogWrites: seq<Write<Reason>>)
    requires db.journal.None? && Avoids(recordWrites, RecordRefs(db).Keys)
    requires forall k :: 0 <= k < |catalogWrites| && catalogWrites[k].Remove? ==> catalogWrites[k].id !in db.catalog
    ensures !RestoreDangles(Traffic(Retyped(db), recordWrites, shiftWrites, catalogWrites))
  {
    RunRemovesNone(catalogWrites, db.catalog, db.catalog.Keys);
    RetypeReversalIsAccepted(db, recordWrites, shiftWrites, catalogWrites);
  }

  // ----- c8f3d2e60a17: the retype journal is dropped -----

  function JournalDropped(db: Db): Db {
    db.(journal := None)
  }

  /** Its downgrade recreates the table empty. */
  function JournalRecreated(db: Db): Db {
    db.(journal := Some(RetypeJournal(map[], map[])))
  }

  lemma RetypedRecordsSame(db: Db)
    ensures Retyped(db).records == db.records <==> RecordRefs(db) == map[]
  {
    forall id | id in db.records ensures Retyped(db).records[id] == db.records[id] <==> id !in RecordRefs(db) {
      assert Retyped(db).records[id] == RetypeRecord(db.catalog, db.records[id]);
    }
  }

  lemma RetypedShiftsSame(db: Db)
    ensures Retyped(db).shifts == db.shifts <==> ShiftRefs(db) == map[]
  {
    forall id | id in db.shifts ensures Retyped(db).shifts[id] == db.shifts[id] <==> id !in ShiftRefs(db) {
      assert Retyped(db).shifts[id] == RetypeShift(db.catalog, db.shifts[id]);
    }
  }

  /**
   * Once the journal was dropped, undoing the retyping restores the database exactly when nothing had been
   * retyped.
   */
  lemma DroppedJournalRestoresNothing(db: Db)
    requires db.journal.None?
    ensures Unretyped(JournalRecreated(JournalDropped(Retyped(db)))) == Retyped(db).(journal := None)
    ensures Unretyped(JournalRecreated(JournalDropped(Retyped(db)))) == db
       <==> RecordRefs(db) == map[] && ShiftRefs(db) == map[]
  {
    var back := Unretyped(JournalRecreated(JournalDropped(Retyped(db))));
    assert back.records == Retyped(db).records && back.shifts == Retyped(db).shifts;
    RetypedRecordsSame(db);
    RetypedShiftsSame(db);
  }

  /** One record, explained by `transition` or by the catalog row `ref`. */
  function OneRecordDb(workspace: Id, c: Id, r: StepRecord): Db {
    SmallDb({workspace}, map[c := SeedRow(workspace, OtherTask)]).(legacy := None, records := map[c := r])
  }

  lemma RetypingMeets(workspace: Id, c: Id, rest: string)
    ensures var picked := OneRecordDb(workspace, c, StepRecord(Paused, None, Some(c), rest));
            var typed := OneRecordDb(workspace, c, StepRecord(Paused, Some(OtherTaskPriority), None, rest));
            && Consistent(picked) && Consistent(typed) && !Conflicted(picked) && !Conflicted(typed)
            && picked.catalog == typed.catalog && Retyped(picked).records == Retyped(typed).records
  {
    var picked := OneRecordDb(workspace, c, StepRecord(Paused, None, Some(c), rest));
    assert SlugIs(picked.catalog, c, OtherTask);
    assert Refers(picked.catalog, Some(c), OtherTask);
  }

  /**
   * And nothing but the journal could tell which rows to restore: no function of the rows and the catalog
   * undoes every retyping, because a transition written after the cutover is identical to a retyped one.
   */
  lemma RetypedRowsAloneCannotRestore(restore: (Catalog, map<Id, StepRecord>) -> map<Id, StepRecord>)
    ensures exists db: Db :: Consistent(db) && !Conflicted(db) && restore(db.catalog, Retyped(db).records) != db.records
  {
    var picked := OneRecordDb("w", "c", StepRecord(Paused, None, Some("c"), ""));
    var typed := OneRecordDb("w", "c", StepRecord(Paused, Some(OtherTaskPriority), None, ""));
    RetypingMeets("w", "c", "");
    assert picked.records["c"] != typed.records["c"];
  }

  // ----- b4e7a1c93f28: retire the slug, scope the index, add the check -----

  predicate StillReferenced(db: Db) {
    || RecordsReferring(db, OtherTask) != {}
    || ShiftsReferring(db, OtherTask) != {}
    || (exists id :: id in db.declared && Refers(db.catalog, db.declared[id], OtherTask))
  }

  predicate AllXor(records: map<Id, StepRecord>) {
    forall id :: id in records ==> Xor(records[id])
  }

  function RetireReason(r: Reason): Reason {
    r.(isDeleted := r.isDeleted || r.slug == Some(OtherTask), systemManaged := false)
  }

  function Retired(db: Db): Db {
    db.(catalog := map c | c in db.catalog :: RetireReason(db.catalog[c]), xorCheck := true, slugsPerWorkspace := true)
  }

  /** UPDATE ... SET is_deleted WHERE slug = 'pause_other_task_priority' AND NOT is_deleted. */
  function DeleteRetired(cat: Catalog): Catalog {
    map c | c in cat ::
      if cat[c].slug == Some(OtherTask) && !cat[c].isDeleted then cat[c].(isDeleted := true) else cat[c]
  }

  /** UPDATE ... SET is_system_managed = false WHERE is_system_managed. */
  function ClearManaged(cat: Catalog): Catalog {
    map c | c in cat :: if cat[c].systemManaged then cat[c].(systemManaged := false) else cat[c]
  }

  lemma RetireStatements(cat: Catalog)
    ensures ClearManaged(DeleteRetired(cat)) == map c | c in cat :: RetireReason(cat[c])
  {
  }

  /**
   * What an accepted retirement leaves: every row with the retired slug is deleted, nothing in any of the three
   * tables refers to one, no flag is set anywhere, and nothing else in the catalog moved.
   */
  lemma RetiredMeans(db: Db)
    requires !StillReferenced(db)
    ensures var after := Retired(db);
            && after.catalog.Keys == db.catalog.Keys && after.xorCheck && after.slugsPerWorkspace
            && (forall c :: c in db.catalog ==>
                  && !after.catalog[c].systemManaged
                  && after.catalog[c].isDeleted == (db.catalog[c].isDeleted || db.catalog[c].slug == Some(OtherTask))
                  && after.catalog[c].slug == db.catalog[c].slug && after.catalog[c].name == db.catalog[c].name
                  && after.catalog[c].workspace == db.catalog[c].workspace)
            && (forall id :: id in db.records && db.records[id].pauseReason.Some? ==>
                  !SlugIs(db.catalog, db.records[id].pauseReason.value, OtherTask))
            && (forall id :: id in db.shifts && db.shifts[id].reason.Some? ==>
                  !SlugIs(db.catalog, db.shifts[id].reason.value, OtherTask))
            && (forall id :: id in db.declared && db.declared[id].Some? ==>
                  !SlugIs(db.catalog, db.declared[id].value, OtherTask))
  {
    forall id | id in db.records && db.records[id].pauseReason.Some?
      ensures !SlugIs(db.catalog, db.records[id].pauseReason.value, OtherTask)
    {
      assert id !in RecordsReferring(db, OtherTask);
    }
    forall id | id in db.shifts && db.shifts[id].reason.Some?
      ensures !SlugIs(db.catalog, db.shifts[id].reason.value, OtherTask)
    {
      assert id !in ShiftsReferring(db, OtherTask);
    }
  }

  /** A retirement that nothing stands against is not refused. */
  lemma UnreferencedIsAccepted(db: Db)
    requires forall id :: id in db.records && db.records[id].pauseReason.Some? ==>
               !SlugIs(db.catalog, db.records[id].pauseReason.value, OtherTask)
    requires forall id :: id in db.shifts && db.shifts[id].reason.Some? ==>
               !SlugIs(db.catalog, db.shifts[id].reason.value, OtherTask)
    requires forall id :: id in db.declared && db.declared[id].Some? ==>
               !SlugIs(db.catalog, db.declared[id].value, OtherTask)
    ensures !StillReferenced(db)
  {
    assert RecordsReferring(db, OtherTask) == {};
    assert ShiftsReferring(db, OtherTask) == {};
  }

  function SlugsInUse(cat: Catalog): set<Slug> {
    set c | c in cat && cat[c].slug.Some? :: cat[c].slug.value
  }

  function HoldersOf(cat: Catalog, s: Slug): set<Id> {
    set c | c in cat && SlugIs(cat, c, s)
  }

  /** SELECT slug ... GROUP BY slug HAVING count(*) > 1. */
  function DuplicatedSlugs(cat: Catalog): set<Slug> {
    set s | s in SlugsInUse(cat) && |HoldersOf(cat, s)| > 1
  }

  function ReviveReason(r: Reason): Reason {
    if r.slug == Some(OtherTask) then r.(isDeleted := false) else r
  }

  function Unretired(db: Db): Db {
    db.(catalog := map c | c in db.catalog :: ReviveReason(db.catalog[c]),
        xorCheck := false, slugsPerWorkspace := false)
  }

  /** What the downgrade leaves: the retired slug's rows live again, and nothing else moved. */
  lemma UnretiredMeans(db: Db, c: Id)
    ensures var after := Unretired(db);
            && after.catalog.Keys == db.catalog.Keys && !after.xorCheck && !after.slugsPerWorkspace
            && (c in db.catalog && db.catalog[c].slug == Some(OtherTask) ==> !after.catalog[c].isDeleted)
            && (c in db.catalog ==> after.catalog[c].(isDeleted := db.catalog[c].isDeleted) == db.catalog[c])
            && (c in db.catalog && db.catalog[c].slug != Some(OtherTask) ==> after.catalog[c] == db.catalog[c])
  {
  }

  lemma TwoHolders(a: set<Id>, c: Id, d: Id)
    requires c in a && d in a && c != d
    ensures |a| > 1
  {
    var rest := a - {c};
    assert |rest| == |rest - {d}| + 1;
  }

  /** The downgrade guard is exact: it lets through precisely the catalogs on which the global index can be rebuilt. */
  lemma DowngradeGuardIsExact(cat: Catalog)
    ensures DuplicatedSlugs(cat) == {} <==> UniqueSlugs(cat)
  {
    if !UniqueSlugs(cat) {
      var c, d :| c in cat && d in cat && cat[c].slug.Some? && cat[c].slug == cat[d].slug && c != d;
      TwoHolders(HoldersOf(cat, cat[c].slug.value), c, d);
      assert cat[c].slug.value in DuplicatedSlugs(cat);
    } else {
      forall s | s in SlugsInUse(cat) ensures |HoldersOf(cat, s)| <= 1 {
        var c :| c in cat && SlugIs(cat, c, s);
        assert HoldersOf(cat, s) == {c};
      }
    }
  }

  /** Retiring and reviving restores the catalog exactly when no flag was set and the retired row was live before. */
  lemma RetireRoundTrip(db: Db)
    ensures Unretired(Retired(db)).catalog == db.catalog
       <==> forall c :: c in db.catalog ==>
           !db.catalog[c].systemManaged && !(db.catalog[c].slug == Some(OtherTask) && db.catalog[c].isDeleted)
  {
    var back := Unretired(Retired(db)).catalog;
    forall c | c in db.catalog
      ensures back[c] == db.catalog[c] <==>
                !db.catalog[c].systemManaged && !(db.catalog[c].slug == Some(OtherTask) && db.catalog[c].isDeleted)
    {
      assert back[c] == ReviveReason(RetireReason(db.catalog[c]));
    }
  }

  // ----- the whole chain -----

  datatype Explanation = Listed(slug: Slug) | System(transition: Transition) | Unexplained

  /** Why a step stopped, as the migrated rows tell it. */
  function Explain(cat: Catalog, r: StepRecord): Explanation {
    if r.transition.Some? then System(r.transition.value)
    else if r.pauseReason.Some? && r.pauseReason.value in cat && cat[r.pauseReason.value].slug.Some?
    then Listed(cat[r.pauseReason.value].slug.value)
    else Unexplained
  }

  /** What a legacy state and reason mean. */
  function Translate(state: StepState, reason: Option<Slug>): Explanation {
    match reason
    case Some(OtherTask) => System(OtherTaskPriority)
    case Some(s) => Listed(s)
    case None => if state == EndedShift then System(ShiftEnded) else Unexplained
  }

  function LegacyReason(db: Db, id: Id): Option<Slug> {
    if db.legacy.Some? && id in db.legacy.value then Some(db.legacy.value[id]) else None
  }

  /**
   * Between two revisions the application may do anything that leaves this record, and the slug it points at,
   * alone.
   */
  ghost predicate Undisturbed(a: Db, b: Db, id: Id) {
    && Consistent(b)
    && id in a.records && id in b.records && a.records[id] == b.records[id]
    && LegacyReason(a, id) == LegacyReason(b, id)
    && a.legacy.Some? == b.legacy.Some?
    && a.slugsPerWorkspace == b.slugsPerWorkspace
    && forall c :: a.records[id].pauseReason == Some(c) && c in a.catalog ==>
         c in b.catalog && b.catalog[c].slug == a.catalog[c].slug
  }

  /** After the backfill every record points at the catalog row of its legacy reason. */
  lemma BackfillExplains(db: Db, first: Option<Id>, after: Db, id: Id)
    requires Consistent(db) && Backfills(db, first, after) && id in db.records
    requires db.records[id].transition.None?
    ensures after.records[id].state == db.records[id].state && after.records[id].transition.None?
    ensures LegacyReason(db, id).None? ==> after.records[id].pauseReason.None?
    ensures LegacyReason(db, id).Some? ==>
              Refers(after.catalog, after.records[id].pauseReason, LegacyReason(db, id).value)
  {
    var legacy := db.legacy.value;
    var blank := BlankColumn(db.records);
    assert after.records[id] == BackfillRow(after.catalog, legacy, id, blank[id]);
    if id in legacy {
      assert after.records[id].pauseReason.Some?;
    }
  }

  /** The retyping turns exactly the retired slug into a transition. */
  lemma RetypeExplains(db: Db, id: Id)
    requires id in db.records && db.records[id].transition.None?
    ensures var r := Retyped(db).records[id];
            && r.state == db.records[id].state
            && Explain(db.catalog, r) ==
                 (if Explain(db.catalog, db.records[id]) == Listed(OtherTask) then System(OtherTaskPriority)
                  else Explain(db.catalog, db.records[id]))
            && (r.transition.Some? ==> r.pauseReason.None? && r.transition.value == OtherTaskPriority)
  {
    assert Retyped(db).records[id] == RetypeRecord(db.catalog, db.records[id]);
  }

  /**
   * One record's way through the chain: the database before and after each revision, with arbitrary
   * undisturbing application traffic between revisions, and the collapse at the end.
   */
  datatype Passage = Passage(
    before: Db, first: Option<Id>, backfilled: Db,
    retyping: Db, retired: Db, collapsing: Db,
    steps: map<Id, TaskStep>, collapseJournal: Option<Journal>)

  function CollapseInput(p: Passage): Tables {
    Tables(MEMBERS_BEFORE, p.collapsing.records, p.steps, p.collapseJournal)
  }

  ghost predicate Travels(p: Passage, id: Id) {
    && Consistent(p.before) && !p.before.slugsPerWorkspace && id in p.before.records
         && p.before.records[id].transition.None?
    && FirstWorkspace(p.before, p.first)
    && Backfills(p.before, p.first, p.backfilled)
    && Undisturbed(DropLegacy(p.backfilled), p.retyping, id)
    && !Conflicted(p.retyping)
    && Undisturbed(Retyped(p.retyping), p.retired, id)
    && !StillReferenced(p.retired) && AllXor(p.retired.records)
    && Undisturbed(Retired(p.retired), p.collapsing, id)
  }

  function Arrived(p: Passage, id: Id): StepRecord
    requires id in p.collapsing.records
  {
    Collapsed(CollapseInput(p)).records[id]
  }

  lemma RetireKeepsSlugs(db: Db)
    ensures Retired(db).catalog.Keys == db.catalog.Keys
    ensures forall c :: c in db.catalog ==> Retired(db).catalog[c].slug == db.catalog[c].slug
  {
  }

  /** Up to the collapse the record keeps its state and says what its legacy reason said. */
  lemma ExplainedBeforeCollapse(p: Passage, id: Id)
    requires Travels(p, id)
    ensures id in p.collapsing.records
    ensures var r := p.collapsing.records[id];
            var reason := LegacyReason(p.before, id);
            && r.state == p.before.records[id].state
            && Explain(p.collapsing.catalog, r) == (if reason.None? then Unexplained else Translate(r.state, reason))
            && (reason == Some(OtherTask) ==> r.transition == Some(OtherTaskPriority))
            && (reason != Some(OtherTask) ==> r.transition.None?)
            && (reason.None? ==> r.pauseReason.None?)
            && (reason.Some? && reason != Some(OtherTask) ==> r.pauseReason.Some?)
  {
    BackfillExplains(p.before, p.first, p.backfilled, id);
    var reason := LegacyReason(p.before, id);
    assert Explain(p.retyping.catalog, p.retyping.records[id]) ==
             if reason.None? then Unexplained else Listed(reason.value);
    RetypeExplains(p.retyping, id);
    var a, b := Retyped(p.retyping), p.retired;
    assert Explain(b.catalog, b.records[id]) == Explain(a.catalog, a.records[id]);
    RetireKeepsSlugs(b);
    assert Explain(Retired(b).catalog, b.records[id]) == Explain(b.catalog, b.records[id]);
  }

  /** The collapse gives an untyped ended shift its reason and leaves every other explanation alone. */
  lemma CollapseExplains(cat: Catalog, r: StepRecord, reason: Option<Slug>)
    requires !Unclassifiable(r)
    requires Explain(cat, r) == (if reason.None? then Unexplained else Translate(r.state, reason))
    requires reason == Some(OtherTask) ==> r.transition == Some(OtherTaskPriority)
    requires reason != Some(OtherTask) ==> r.transition.None?
    requires reason.None? ==> r.pauseReason.None?
    requires reason.Some? && reason != Some(OtherTask) ==> r.pauseReason.Some?
    requires Xor(r)
    ensures Explain(cat, Reclassify(r)) == Translate(r.state, reason)
    ensures Reclassify(r).state == (if r.state == EndedShift then Paused else r.state)
    ensures Xor(Reclassify(r))
  {
  }

  /**
   * End to end: for every legacy record the chain accepts, the final explanation is the fixed
   * translation of its original state and reason, and only `ended_shift` changes state.
   */
  lemma MeaningIsPreserved(p: Passage, id: Id)
    requires Travels(p, id) && !Refuses(CollapseInput(p))
    ensures id in p.collapsing.records
    ensures var origin := p.before.records[id];
            && Explain(p.collapsing.catalog, Arrived(p, id)) == Translate(origin.state, LegacyReason(p.before, id))
            && Arrived(p, id).state == (if origin.state == EndedShift then Paused else origin.state)
            && Xor(Arrived(p, id))
  {
    ExplainedBeforeCollapse(p, id);
    var r := p.collapsing.records[id];
    assert !Unclassifiable(r);
    CollapseExplains(p.collapsing.catalog, r, LegacyReason(p.before, id));
  }

  /** An ended shift blamed on another task. */
  predicate Uncarried(db: Db, id: Id) {
    id in db.records && db.records[id].state == EndedShift && LegacyReason(db, id) == Some(OtherTask)
  }

  /** The one legacy combination the chain cannot carry: a record arrives unclassifiable exactly when it was that. */
  lemma UnclassifiableMeansUncarried(p: Passage, id: Id)
    requires Travels(p, id)
    ensures id in p.collapsing.records
    ensures Unclassifiable(p.collapsing.records[id]) <==> Uncarried(p.before, id)
  {
    ExplainedBeforeCollapse(p, id);
  }

  /** So an ended shift blamed on another task stops the collapse. */
  lemma EndedShiftForOtherTaskIsRefused(p: Passage, id: Id)
    requires Travels(p, id) && Uncarried(p.before, id)
    ensures Refuses(CollapseInput(p))
  {
    UnclassifiableMeansUncarried(p, id);
  }

  /**
   * When every record at the collapse came through the chain, the collapse refuses exactly if one of them was
   * such a record.
   */
  lemma ChainRefusesExactly(p: Passage)
    requires forall id :: id in p.collapsing.records ==> Travels(p, id)
    ensures Refuses(CollapseInput(p)) <==> exists id :: id in p.collapsing.records && Uncarried(p.before, id)
  {
    forall id | id in p.collapsing.records
      ensures Unclassifiable(p.collapsing.records[id]) <==> Uncarried(p.before, id)
    {
      UnclassifiableMeansUncarried(p, id);
    }
  }

  // ----- the chain without traffic -----

  /** The chain run straight through, with no application traffic between the revisions. */
  function Straight(db: Db, first: Option<Id>, cat: Catalog): Passage
    requires db.legacy.Some? && UniqueSlugs(cat)
  {
    var backfilled := db.(catalog := cat, records := BackfillRecords(cat, db.legacy.value, BlankColumn(db.records)));
    var retyping := DropLegacy(backfilled);
    Passage(db, first, backfilled, retyping, Retyped(retyping), Retired(Retyped(retyping)), map[], None)
  }

  /**
   * A database of the time before the chain: legacy reasons only, nothing typed, and nothing else referring
   * to the catalog.
   */
  ghost predicate Legacy(db: Db) {
    && Consistent(db) && !db.slugsPerWorkspace && !db.xorCheck && db.legacy.Some? && db.journal.None?
    && (forall id :: id in db.records ==> db.records[id].transition.None?)
    && db.shifts == map[] && db.declared == map[]
  }

  lemma AnchorStaysHome(db: Db, first: Option<Id>, cat: Catalog)
    requires Consistent(db) && FirstWorkspace(db, first) && AddAnchor(db.catalog, first) == Some(cat)
    ensures forall c :: c in cat ==> cat[c].workspace in db.workspaces
  {
  }

  lemma BackfillIsConsistent(db: Db, first: Option<Id>, cat: Catalog)
    requires Legacy(db) && FirstWorkspace(db, first) && GatePasses(db.catalog)
               && AddAnchor(db.catalog, first) == Some(cat)
    requires UniqueSlugs(cat)
    ensures var p := Straight(db, first, cat);
            Backfills(db, first, p.backfilled) && Consistent(p.retyping) && !Conflicted(p.retyping)
  {
    AnchorKeepsUnique(db.catalog, first, cat);
    UnmappedIsUnreachable(db, first, cat);
    AnchorStaysHome(db, first, cat);
    var p := Straight(db, first, cat);
    forall id | id in p.retyping.records
      ensures p.retyping.records[id].transition.None?
      ensures p.retyping.records[id].pauseReason.Some? ==> p.retyping.records[id].pauseReason.value in cat
    {
      assert p.retyping.records[id] == BackfillRow(cat, db.legacy.value, id, BlankColumn(db.records)[id]);
    }
  }

  lemma RetypingIsConsistent(db: Db)
    requires Consistent(db) && !db.slugsPerWorkspace && !Conflicted(db) && db.shifts == map[] && db.declared == map[]
    requires forall id :: id in db.records ==> db.records[id].transition.None?
    ensures Consistent(Retyped(db)) && !StillReferenced(Retyped(db)) && AllXor(Retyped(db).records)
    ensures Consistent(Retired(Retyped(db)))
  {
    RetypeSelfChecks(db);
    var after := Retyped(db);
    forall id | id in db.records
      ensures Xor(after.records[id])
      ensures after.records[id].pauseReason.Some? ==> after.records[id].pauseReason.value in db.catalog
    {
      assert after.records[id] == RetypeRecord(db.catalog, db.records[id]);
    }
  }

  /** Every record of every such database that passes the gate and takes the anchor travels the chain. */
  lemma StraightTravels(db: Db, first: Option<Id>, cat: Catalog, id: Id)
    requires Legacy(db) && FirstWorkspace(db, first) && GatePasses(db.catalog)
               && AddAnchor(db.catalog, first) == Some(cat)
    requires UniqueSlugs(cat) && id in db.records
    ensures Travels(Straight(db, first, cat), id)
  {
    BackfillIsConsistent(db, first, cat);
    RetypingIsConsistent(Straight(db, first, cat).retyping);
    RetireKeepsSlugs(Straight(db, first, cat).retired);
  }

  /** Nobody holds a slug in an empty catalog and nothing is taken, so seeding it goes through and opens the gate. */
  lemma SeedingFromNothing(workspace: Id)
    ensures var db := SmallDb({workspace}, map[]);
            Seed(db, Some(workspace)).Some? && GatePasses(Seed(db, Some(workspace)).value.catalog)
  {
    var db := SmallDb({workspace}, map[]);
    SeedingOpensTheGate(db, Some(workspace));
  }

  /** The seeds of an empty catalog, and nothing else. */
  function SeededCatalog(workspace: Id): Catalog {
    var db := Seed(SmallDb({workspace}, map[]), Some(workspace));
    if db.Some? then db.value.catalog else map[]
  }

  /** The anchor's slug, id and name differ from every seed's. */
  lemma AnchorDiffers(s: Slug)
    requires s in REQUIRED
    ensures s != CaseCreated && SeedId(CaseCreated) != SeedId(s) && SeedName(CaseCreated) != SeedName(s)
  {
    SeedMarks(s);
    assert SeedId(CaseCreated)[14] == 'T';
    assert SeedName(CaseCreated)[0] == 'C' && SeedName(CaseCreated)[1] == 'a';
    assert s == CoffeeBreak ==> SeedName(s)[1] == 'o';
  }

  lemma AnchorFits(cat: Catalog, workspace: Id, seeds: seq<Slug>)
    requires AddsSeeds(map[], cat, workspace, seeds) && forall s :: s in seeds ==> s in REQUIRED
    ensures forall c :: c in cat ==> cat[c].workspace == workspace
    ensures AddAnchor(cat, Some(workspace)).Some?
  {
    forall c | c in cat
      ensures cat[c].workspace == workspace && c != SeedId(CaseCreated) && cat[c].name != SeedName(CaseCreated)
    {
      var k :| 0 <= k < |seeds| && c == SeedId(seeds[k]) && cat[c] == SeedRow(workspace, seeds[k]);
      AnchorDiffers(seeds[k]);
    }
  }

  lemma SeededCatalogTakesAnchor(workspace: Id)
    ensures var cat := SeededCatalog(workspace);
            && GatePasses(cat) && UniqueSlugs(cat)
            && (forall c :: c in cat ==> cat[c].workspace == workspace)
            && AddAnchor(cat, Some(workspace)).Some?
  {
    SeedingFromNothing(workspace);
    SeedAllGrows(map[], workspace, SEEDS);
    SeedsAreDistinct();
    SeedingGoesThrough(map[], workspace, SEEDS);
    SeedsAreRequired();
    AnchorFits(SeededCatalog(workspace), workspace, SEEDS);
  }

  /** A seeded database with one paused or ended record, whatever its legacy reason. */
  function OneLegacyRecord(workspace: Id, id: Id, state: StepState, reason: Option<Slug>): Db {
    SmallDb({workspace}, SeededCatalog(workspace)).(
      legacy := Some(if reason.Some? then map[id := reason.value] else map[]),
      records := map[id := StepRecord(state, None, None, id)])
  }

  /** The chain does carry records: for every state and every legacy reason there is one that travels it. */
  lemma SomeRecordTravels(workspace: Id, id: Id, state: StepState, reason: Option<Slug>)
    requires reason.Some? ==> !reason.value.Custom?
    ensures exists p: Passage :: Travels(p, id) && p.before == OneLegacyRecord(workspace, id, state, reason)
  {
    SeededCatalogTakesAnchor(workspace);
    var db := OneLegacyRecord(workspace, id, state, reason);
    var cat := AddAnchor(db.catalog, Some(workspace)).value;
    AnchorKeepsUnique(db.catalog, Some(workspace), cat);
    StraightTravels(db, Some(workspace), cat, id);
  }

  // ----- the revisions as the scripts run them -----

  datatype Verdict = Applied | Rejected

  /** Once an insert is rejected the seeding as a whole is. */
  lemma {:induction false} SeedFailsFrom(cat: Catalog, workspace: Id, seeds: seq<Slug>, k: nat)
    requires k <= |seeds| && SeedAll(cat, workspace, seeds[..k]).None?
    ensures SeedAll(cat, workspace, seeds).None?
    decreases |seeds| - k
  {
    if k == |seeds| {
      assert seeds[..k] == seeds;
    } else {
      assert seeds[..k + 1][..k] == seeds[..k];
      SeedFailsFrom(cat, workspace, seeds, k + 1);
    }
  }

  /** The database the scripts mutate; a script that raises leaves it as it was. */
  class ReasonDatabase {
    var workspaces: set<Id>
    var catalog: Catalog
    var legacy: Option<map<Id, Slug>>
    var records: map<Id, StepRecord>
    var shifts: map<Id, ShiftRef>
    var declared: map<Id, Option<Id>>
    var journal: Option<RetypeJournal>
    var xorCheck: bool
    var slugsPerWorkspace: bool

    ghost function View(): Db
      reads this
    {
      Db(workspaces, catalog, legacy, records, shifts, declared, journal, xorCheck, slugsPerWorkspace)
    }

    /** 49bd666da846: six conflict-ignoring inserts. */
    method SeedDefaults(first: Option<Id>) returns (v: Verdict)
      requires FirstWorkspace(View(), first)
      modifies this`catalog
      ensures v == Applied <==> Seed(old(View()), first).Some?
      ensures View() == if v == Applied then Seed(old(View()), first).value else old(View())
    {
      if first.None? {
        return Applied;
      }
      v := InsertSeeds(first.value, SEEDS);
    }

    method InsertSeeds(workspace: Id, seeds: seq<Slug>) returns (v: Verdict)
      modifies this`catalog
      ensures v == Applied <==> SeedAll(old(catalog), workspace, seeds).Some?
      ensures catalog == if v == Applied then SeedAll(old(catalog), workspace, seeds).value else old(catalog)
    {
      var saved := catalog;
      for k := 0 to |seeds|
        invariant SeedAll(old(catalog), workspace, seeds[..k]) == Some(catalog)
      {
        assert seeds[..k + 1][..k] == seeds[..k];
        var r := InsertReason(catalog, SeedId(seeds[k]), SeedRow(workspace, seeds[k]));
        if r.None? {
          SeedFailsFrom(old(catalog), workspace, seeds, k + 1);
          catalog := saved;
          return Rejected;
        }
        catalog := r.value;
      }
      assert seeds[..|seeds|] == seeds;
      v := Applied;
    }

    /** fb10ac7fd439: new column, gate, anchor, join, unmapped check. */
    method BackfillReferences(first: Option<Id>) returns (v: Verdict)
      requires Consistent(View()) && !slugsPerWorkspace && legacy.Some? && FirstWorkspace(View(), first)
      modifies this`catalog, this`records
      ensures v == Applied <==> GatePasses(old(catalog)) && AddAnchor(old(catalog), first).Some?
      ensures v == Applied ==> Backfills(old(View()), first, View())
      ensures v == Rejected ==> View() == old(View())
    {
      var saved := records;
      records := BlankColumn(records);
      if |LiveRequired(catalog)| != |SEEDS| {
        records := saved;
        return Rejected;
      }
      var anchored := AddAnchor(catalog, first);
      if anchored.None? {
        records := saved;
        return Rejected;
      }
      AnchorKeepsUnique(catalog, first, anchored.value);
      UnmappedIsUnreachable(old(View()), first, anchored.value);
      catalog := anchored.value;
      records := BackfillRecords(catalog, legacy.value, records);
      if Unmapped(legacy.value, records) {
        assert false;
      }
      v := Applied;
    }

    /** 97b60e06d42a: conflict check, journal, two updates, two self-checks. */
    method Retype() returns (v: Verdict)
      modifies this`records, this`shifts, this`journal
      ensures v == Rejected <==> Conflicted(old(View()))
      ensures View() == if v == Applied then Retyped(old(View())) else old(View())
    {
      var db := Db(workspaces, catalog, legacy, records, shifts, declared, journal, xorCheck, slugsPerWorkspace);
      if Conflicted(db) {
        return Rejected;
      }
      var guardedBefore := GuardedCounts(db);
      var held := if journal.Some? then journal.value else RetypeJournal(map[], map[]);
      held := held.(records := RecordRefs(db) + held.records);
      held := held.(shifts := ShiftRefs(db) + held.shifts);
      journal := Some(held);
      records := RetypeRecords(catalog, records);
      shifts := RetypeShifts(catalog, shifts);
      RetypeSelfChecks(db);
      var now := Db(workspaces, catalog, legacy, records, shifts, declared, journal, xorCheck, slugsPerWorkspace);
      assert now == Retyped(db);
      if Remaining(now) != 0 {
        assert false;
      }
      if GuardedCounts(now) != guardedBefore {
        assert false;
      }
      v := Applied;
    }

    /** Its downgrade; the foreign key rejects a reference whose catalog row is gone. */
    method UndoRetype() returns (v: Verdict)
      modifies this`records, this`shifts, this`journal
      ensures v == Applied <==> old(journal).Some? && !RestoreDangles(old(View()))
      ensures View() == if v == Applied then Unretyped(old(View())) else old(View())
    {
      if journal.None? {
        return Rejected;
      }
      if RestoreDangles(Db(workspaces, catalog, legacy, records, shifts, declared, journal, xorCheck,
                           slugsPerWorkspace)) {
        return Rejected;
      }
      records := Restore(records, journal.value.records, PutRecordRef);
      shifts := Restore(shifts, journal.value.shifts, PutShiftRef);
      journal := None;
      v := Applied;
    }

    /** c8f3d2e60a17 counts the journal's rows, so it needs the table; its downgrade creates it empty. */
    method DropJournal() returns (v: Verdict)
      modifies this`journal
      ensures v == Applied <==> old(journal).Some?
      ensures View() == if v == Applied then JournalDropped(old(View())) else old(View())
    {
      if journal.None? {
        return Rejected;
      }
      journal := None;
      v := Applied;
    }

    method RecreateJournal() returns (v: Verdict)
      modifies this`journal
      ensures v == Applied <==> old(journal).None?
      ensures View() == if v == Applied then JournalRecreated(old(View())) else old(View())
    {
      if journal.Some? {
        return Rejected;
      }
      journal := Some(RetypeJournal(map[], map[]));
      v := Applied;
    }

    /** b4e7a1c93f28: index, guarded soft delete, flag, check constraint. */
    method Retire() returns (v: Verdict)
      modifies this`catalog, this`xorCheck, this`slugsPerWorkspace
      ensures v == Applied <==> !StillReferenced(old(View())) && AllXor(old(records))
      ensures View() == if v == Applied then Retired(old(View())) else old(View())
    {
      var db := Db(workspaces, catalog, legacy, records, shifts, declared, journal, xorCheck, slugsPerWorkspace);
      if StillReferenced(db) {
        return Rejected;
      }
      var saved := catalog;
      catalog := DeleteRetired(catalog);
      catalog := ClearManaged(catalog);
      RetireStatements(saved);
      if !AllXor(records) {
        catalog := saved;
        return Rejected;
      }
      slugsPerWorkspace, xorCheck := true, true;
      v := Applied;
    }

    method UndoRetire() returns (v: Verdict)
      modifies this`catalog, this`xorCheck, this`slugsPerWorkspace
      ensures v == Applied <==> UniqueSlugs(old(catalog))
      ensures View() == if v == Applied then Unretired(old(View())) else old(View())
      ensures v == Applied ==> UniqueSlugs(catalog)
    {
      DowngradeGuardIsExact(catalog);
      if DuplicatedSlugs(catalog) != {} {
        return Rejected;
      }
      xorCheck := false;
      catalog := map c | c in catalog :: ReviveReason(catalog[c]);
      slugsPerWorkspace := false;
      v := Applied;
    }
  }
}
