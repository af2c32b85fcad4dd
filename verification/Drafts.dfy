/**
 * Stock-report versions become draftable: the constraint change of revision 3b8d2f7a9c41 over the tables
 * of 11e1d0d47686. Rows carry the columns of both schemas; a column a schema lacks holds its default.
 */
module Drafts {
  import opened Relational

  datatype Version = Version(
    workspace: Id, activeAt: Option<int>, closedAt: Option<int>,
    title: Option<string>, scheduledAt: Option<int>, keepsMissing: bool, rest: string)

  /** `requested` is `quantity_requested`, renamed `quantity_requested_scanner` by the revision. */
  datatype Snapshot = Snapshot(
    workspace: Id, version: Id, item: Id,
    requested: Option<int>, manual: Option<int>, missing: Option<int>,
    activeAt: Option<int>, closedAt: Option<int>, rest: string)

  datatype RequestedSource = Scanner | Manual
  datatype HistoryRecord = HistoryRecord(source: RequestedSource, rest: string)

  datatype Tables = Tables(versions: map<Id, Version>, snapshots: map<Id, Snapshot>, history: map<Id, HistoryRecord>)

  predicate NonNegative(q: Option<int>) {
    q.Some? ==> q.value >= 0
  }

  /** A partial unique index over versions: at most one row per workspace among those `counted`. */
  predicate OneVersion(versions: map<Id, Version>, counted: Version -> bool) {
    forall a, b | a in versions && b in versions && counted(versions[a]) && counted(versions[b]) ::
      versions[a].workspace == versions[b].workspace ==> a == b
  }

  predicate OneSnapshot(snapshots: map<Id, Snapshot>, counted: Snapshot -> bool) {
    forall a, b | a in snapshots && b in snapshots && counted(snapshots[a]) && counted(snapshots[b]) ::
      snapshots[a].workspace == snapshots[b].workspace && snapshots[a].item == snapshots[b].item ==> a == b
  }

  const OpenVersion: Version -> bool := (v: Version) => v.closedAt.None?
  const ActiveVersion: Version -> bool := (v: Version) => v.activeAt.Some? && v.closedAt.None?
  const OpenSnapshot: Snapshot -> bool := (s: Snapshot) => s.closedAt.None?
  const ActiveSnapshot: Snapshot -> bool := (s: Snapshot) => s.activeAt.Some? && s.closedAt.None?

  /** What both schemas demand: the foreign key and one snapshot per version and row. */
  predicate Shared(t: Tables) {
    && (forall s :: s in t.snapshots ==> t.snapshots[s].version in t.versions)
    && (forall a, b | a in t.snapshots && b in t.snapshots ::
        t.snapshots[a].version == t.snapshots[b].version && t.snapshots[a].item == t.snapshots[b].item ==> a == b)
  }

  predicate OldVersionRow(v: Version) {
    v.activeAt.Some? && v.title.None? && v.scheduledAt.None? && !v.keepsMissing
  }

  predicate OldSnapshotRow(s: Snapshot) {
    && s.activeAt.Some? && s.manual.None?
    && s.requested.Some? && s.requested.value >= 0 && s.missing.Some? && s.missing.value >= 0
  }

  predicate OldLegal(t: Tables) {
    && Shared(t)
    && (forall v :: v in t.versions ==> OldVersionRow(t.versions[v]))
    && (forall s :: s in t.snapshots ==> OldSnapshotRow(t.snapshots[s]))
    && (forall h :: h in t.history ==> t.history[h].source == Scanner)
    && OneVersion(t.versions, OpenVersion) && OneSnapshot(t.snapshots, OpenSnapshot)
  }

  predicate NewVersionRow(v: Version) {
    && (v.closedAt.Some? ==> v.activeAt.Some?)
    && (v.scheduledAt.Some? ==> v.activeAt.None?)
  }

  predicate NewSnapshotRow(s: Snapshot) {
    && NonNegative(s.requested) && NonNegative(s.manual) && NonNegative(s.missing)
    && (s.requested.None? <==> s.activeAt.None?)
    && (s.closedAt.Some? ==> s.activeAt.Some?)
    && (s.activeAt.Some? ==> s.missing.Some?)
  }

  predicate NewLegal(t: Tables) {
    && Shared(t)
    && (forall v :: v in t.versions ==> NewVersionRow(t.versions[v]))
    && (forall s :: s in t.snapshots ==> NewSnapshotRow(t.snapshots[s]))
    && OneVersion(t.versions, ActiveVersion) && OneSnapshot(t.snapshots, ActiveSnapshot)
  }

  /** No two different versions of one workspace that both are open; under the new schema, both active and open. */
  ghost predicate VersionsApart(versions: map<Id, Version>, drafts: bool) {
    forall a, b :: && a in versions && b in versions && a != b
                   && versions[a].closedAt.None? && versions[b].closedAt.None?
                   && (drafts ==> versions[a].activeAt.Some? && versions[b].activeAt.Some?) ==>
      versions[a].workspace != versions[b].workspace
  }

  /** The same of the snapshots of one row. */
  ghost predicate SnapshotsApart(snapshots: map<Id, Snapshot>, drafts: bool) {
    forall a, b :: && a in snapshots && b in snapshots && a != b
                   && snapshots[a].closedAt.None? && snapshots[b].closedAt.None?
                   && (drafts ==> snapshots[a].activeAt.Some? && snapshots[b].activeAt.Some?) ==>
      snapshots[a].workspace != snapshots[b].workspace || snapshots[a].item != snapshots[b].item
  }

  lemma IndexesMean(versions: map<Id, Version>, snapshots: map<Id, Snapshot>)
    ensures OneVersion(versions, OpenVersion) <==> VersionsApart(versions, false)
    ensures OneVersion(versions, ActiveVersion) <==> VersionsApart(versions, true)
    ensures OneSnapshot(snapshots, OpenSnapshot) <==> SnapshotsApart(snapshots, false)
    ensures OneSnapshot(snapshots, ActiveSnapshot) <==> SnapshotsApart(snapshots, true)
  {
  }

  /** What both schemas demand of two snapshots of one version. */
  lemma SharedMeans(t: Tables)
    ensures Shared(t) <==>
              && (forall s :: s in t.snapshots ==> t.snapshots[s].version in t.versions)
              && (forall a, b :: && a in t.snapshots && b in t.snapshots && a != b
                                 && t.snapshots[a].version == t.snapshots[b].version ==>
                    t.snapshots[a].item != t.snapshots[b].item)
  {
  }

  /** The new schema's checks on a version: closed only once activated, scheduled only as a draft. */
  lemma VersionRowMeans(v: Version)
    ensures NewVersionRow(v) <==> !(v.closedAt.Some? && v.activeAt.None?) && !(v.scheduledAt.Some? && v.activeAt.Some?)
  {
  }

  /**
   * Its checks on a snapshot: a draft has no scanned quantity and is not closed, an active one has a scanned
   * and a missing one, none is negative.
   */
  lemma SnapshotRowMeans(s: Snapshot)
    ensures NewSnapshotRow(s) <==>
              && (s.activeAt.None? ==> s.requested.None? && s.closedAt.None?)
              && (s.activeAt.Some? ==> s.requested.Some? && s.missing.Some?)
              && (s.requested.Some? ==> s.requested.value >= 0) && (s.missing.Some? ==> s.missing.value >= 0)
              && (s.manual.Some? ==> s.manual.value >= 0)
  {
  }

  /** No draft version and no manual value: what the downgrade asks before it starts. */
  predicate GuardPasses(t: Tables) {
    && (forall v :: v in t.versions ==> t.versions[v].activeAt.Some?)
    && (forall s :: s in t.snapshots ==> t.snapshots[s].manual.None?)
  }

  predicate HasDraftSnapshot(t: Tables) {
    exists s :: s in t.snapshots && t.snapshots[s].activeAt.None?
  }

  /** Adding the new columns with their defaults, and dropping them, leave their defaults in every row. */
  function NarrowVersions(versions: map<Id, Version>): map<Id, Version> {
    map v | v in versions :: versions[v].(title := None, scheduledAt := None, keepsMissing := false)
  }

  function NarrowSnapshots(snapshots: map<Id, Snapshot>): map<Id, Snapshot> {
    map s | s in snapshots :: snapshots[s].(manual := None)
  }

  function NarrowHistory(history: map<Id, HistoryRecord>): map<Id, HistoryRecord> {
    map h | h in history :: history[h].(source := Scanner)
  }

  function Narrowed(t: Tables): Tables {
    Tables(NarrowVersions(t.versions), NarrowSnapshots(t.snapshots), NarrowHistory(t.history))
  }

  datatype Outcome = Applied | ConstraintFailed | GuardRefused

  lemma OldVersions(versions: map<Id, Version>)
    requires forall v :: v in versions ==> OldVersionRow(versions[v])
    requires OneVersion(versions, OpenVersion)
    ensures NarrowVersions(versions) == versions && OneVersion(versions, ActiveVersion)
  {
  }

  lemma OldSnapshots(snapshots: map<Id, Snapshot>)
    requires forall s :: s in snapshots ==> OldSnapshotRow(snapshots[s])
    requires OneSnapshot(snapshots, OpenSnapshot)
    ensures NarrowSnapshots(snapshots) == snapshots && OneSnapshot(snapshots, ActiveSnapshot)
  {
  }

  lemma OldHistory(history: map<Id, HistoryRecord>)
    requires forall h :: h in history ==> history[h].source == Scanner
    ensures NarrowHistory(history) == history
  {
  }

  /** Every database legal under the old constraints satisfies all the new ones, without touching a row. */
  lemma OldImpliesNew(t: Tables)
    requires OldLegal(t)
    ensures NewLegal(t) && Narrowed(t) == t
  {
    OldVersions(t.versions);
    OldSnapshots(t.snapshots);
    OldHistory(t.history);
  }

  lemma NarrowedVersions(versions: map<Id, Version>)
    requires OneVersion(versions, ActiveVersion) && forall v :: v in versions ==> versions[v].activeAt.Some?
    ensures OneVersion(NarrowVersions(versions), OpenVersion)
    ensures forall v :: v in versions ==> OldVersionRow(NarrowVersions(versions)[v])
  {
  }

  lemma NarrowedSnapshots(snapshots: map<Id, Snapshot>)
    requires OneSnapshot(snapshots, ActiveSnapshot)
    requires forall s :: s in snapshots ==> NewSnapshotRow(snapshots[s]) && snapshots[s].activeAt.Some?
    ensures OneSnapshot(NarrowSnapshots(snapshots), OpenSnapshot)
    ensures forall s :: s in snapshots ==> OldSnapshotRow(NarrowSnapshots(snapshots)[s])
  {
  }

  lemma NarrowedShared(t: Tables)
    requires Shared(t)
    ensures Shared(Narrowed(t))
  {
  }

  lemma DraftsStayDrafts(t: Tables)
    ensures HasDraftSnapshot(t) <==> HasDraftSnapshot(Narrowed(t))
    ensures HasDraftSnapshot(t) ==> !OldLegal(Narrowed(t))
  {
    assert forall s :: s in t.snapshots ==> Narrowed(t).snapshots[s].activeAt == t.snapshots[s].activeAt;
  }

  /** Past the guard, the old NOT NULLs and both old unique indexes hold exactly when no snapshot is a draft. */
  lemma NarrowedIsOldLegal(t: Tables)
    requires NewLegal(t) && GuardPasses(t)
    ensures OldLegal(Narrowed(t)) <==> !HasDraftSnapshot(t)
    ensures HasDraftSnapshot(t) <==> HasDraftSnapshot(Narrowed(t))
  {
    DraftsStayDrafts(t);
    if !HasDraftSnapshot(t) {
      NarrowedVersions(t.versions);
      NarrowedSnapshots(t.snapshots);
      NarrowedShared(t);
    }
  }

  /** A snapshot is a draft exactly when its version is. No constraint enforces this. */
  predicate DraftsTogether(t: Tables) {
    forall s :: s in t.snapshots && t.snapshots[s].version in t.versions ==>
      (t.snapshots[s].activeAt.None? <==> t.versions[t.snapshots[s].version].activeAt.None?)
  }

  /** Under that rule the guard alone decides: a downgrade that starts also finishes. */
  lemma GuardSuffices(t: Tables)
    requires NewLegal(t) && DraftsTogether(t) && GuardPasses(t)
    ensures !HasDraftSnapshot(t) && OldLegal(Narrowed(t))
  {
    NarrowedIsOldLegal(t);
  }

  function DraftUnderActive(v: Id, s: Id): Tables {
    Tables(map[v := Version(v, Some(0), None, None, None, false, v)],
           map[s := Snapshot(v, v, s, None, None, None, None, None, s)], map[])
  }

  lemma DraftUnderActiveIsLegal(v: Id, s: Id)
    ensures NewLegal(DraftUnderActive(v, s)) && GuardPasses(DraftUnderActive(v, s))
  {
  }

  /** Without it the guard is not enough: a draft snapshot under an active version passes the guard and then fails. */
  lemma GuardAloneIsNotEnough()
    ensures exists t: Tables :: NewLegal(t) && GuardPasses(t) && !OldLegal(Narrowed(t))
  {
    var t := DraftUnderActive("v", "s");
    DraftUnderActiveIsLegal("v", "s");
    assert t.snapshots["s"].activeAt.None?;
    NarrowedIsOldLegal(t);
  }

  lemma VersionsLose(versions: map<Id, Version>)
    requires forall v :: v in versions ==> NewVersionRow(versions[v]) && versions[v].activeAt.Some?
    ensures NarrowVersions(versions) == versions <==>
              forall v :: v in versions ==> versions[v].title.None? && !versions[v].keepsMissing
  {
    var n := NarrowVersions(versions);
    assert n == versions <==> forall v :: v in versions ==> n[v] == versions[v];
  }

  lemma HistoryLoses(history: map<Id, HistoryRecord>)
    ensures NarrowHistory(history) == history <==> forall h :: h in history ==> history[h].source == Scanner
  {
    var n := NarrowHistory(history);
    assert n == history <==> forall h :: h in history ==> n[h] == history[h];
  }

  /**
   * What a downgrade loses, exactly: titles, the keep-missing flag of activated versions, and manual sources
   * in history.
   */
  lemma DowngradeLoses(t: Tables)
    requires NewLegal(t) && GuardPasses(t) && !HasDraftSnapshot(t)
    ensures Narrowed(t) == t <==>
              && (forall v :: v in t.versions ==> t.versions[v].title.None? && !t.versions[v].keepsMissing)
              && (forall h :: h in t.history ==> t.history[h].source == Scanner)
  {
    VersionsLose(t.versions);
    HistoryLoses(t.history);
    assert NarrowSnapshots(t.snapshots) == t.snapshots;
  }

  /** The NOT NULLs and unique indexes the downgrade rebuilds, in the script's order. */
  predicate Rebuilds(versions: map<Id, Version>, snapshots: map<Id, Snapshot>) {
    && (forall s :: s in snapshots ==> snapshots[s].missing.Some?)
    && (forall s :: s in snapshots ==> snapshots[s].requested.Some?)
    && OneSnapshot(snapshots, OpenSnapshot) && OneVersion(versions, OpenVersion)
    && (forall s :: s in snapshots ==> snapshots[s].activeAt.Some?)
    && (forall v :: v in versions ==> versions[v].activeAt.Some?)
  }

  lemma RebuildsIffLegal(t: Tables)
    requires OldLegal(t) <==> !HasDraftSnapshot(t)
    ensures Rebuilds(t.versions, t.snapshots) <==> OldLegal(t)
  {
  }

  class ReportDatabase {
    var versions: map<Id, Version>
    var snapshots: map<Id, Snapshot>
    var history: map<Id, HistoryRecord>

    ghost function View(): Tables
      reads this
    {
      Tables(versions, snapshots, history)
    }

    /** Every new index and check is built over the existing rows, in order; none can fail. */
    method Upgrade() returns (outcome: Outcome)
      requires OldLegal(View())
      modifies this
      ensures outcome == Applied && NewLegal(View()) && View() == old(View())
    {
      OldImpliesNew(View());
      if !OneVersion(versions, ActiveVersion) { assert false; }
      if !OneSnapshot(snapshots, ActiveSnapshot) { assert false; }
      versions := NarrowVersions(versions);
      if exists v :: v in versions && !NewVersionRow(versions[v]) { assert false; }
      snapshots := NarrowSnapshots(snapshots);
      if exists s :: s in snapshots && !NewSnapshotRow(snapshots[s]) { assert false; }
      history := NarrowHistory(history);
      outcome := Applied;
    }

    /** Guard first, then the columns and constraints of the old schema, in the script's order. */
    method Downgrade() returns (outcome: Outcome)
      requires NewLegal(View())
      modifies this
      ensures outcome == GuardRefused <==> !GuardPasses(old(View()))
      ensures outcome == Applied <==> GuardPasses(old(View())) && !HasDraftSnapshot(old(View()))
      ensures View() == if outcome == Applied then Narrowed(old(View())) else old(View())
      ensures outcome == Applied ==> OldLegal(View())
    {
      var saved := Tables(versions, snapshots, history);
      if !GuardPasses(saved) {
        return GuardRefused;
      }
      history := NarrowHistory(history);
      snapshots := NarrowSnapshots(snapshots);
      versions := NarrowVersions(versions);
      NarrowedIsOldLegal(saved);
      RebuildsIffLegal(Narrowed(saved));
      if !Rebuilds(versions, snapshots) {
        versions, snapshots, history := saved.versions, saved.snapshots, saved.history;
        return ConstraintFailed;
      }
      outcome := Applied;
    }
  }
}
