/**
 * Deployment migration jobs (scripts/migrate.py) as a transition system: any number of jobs, each with its
 * own code version, race for one advisory lock on one database. Sessions stay alive while they run, and a
 * job is not cancelled while its steps run.
 */
module MigrateJobs {
  import opened Relational

  type Revision = string
  type JobId = nat

  const EXIT_OK := 0
  const EXIT_STEP_FAILED := 1
  const EXIT_LOCK_TIMEOUT := 2
  const EXIT_PENDING := 3
  const EXIT_DATABASE_AHEAD := 4

  /** Where a job is; the states from `Reading` to `Releasing` lie between lock and unlock. */
  datatype Pc =
    | Starting
    | Trying                 // polling pg_try_advisory_lock
    | Reading                // lock held, about to read the revisions
    | Upgrading              // alembic upgrade head, committing one revision at a time
    | Triggering             // apply_db_triggers
    | Verifying(result: int) // steps over, about to read the revisions again
    | Releasing(code: int)   // the finally clause
    | Checking               // --check: about to read, no lock
    | Exited(code: int)

  /** `known` and `heads` are the revisions and heads of the job's own code; the rest is its history. */
  datatype Job = Job(pc: Pc, known: set<Revision>, heads: set<Revision>, wrote: bool, upgraded: bool, triggered: bool)

  datatype World = World(lock: Option<JobId>, database: set<Revision>, jobs: map<JobId, Job>)

  predicate InLock(pc: Pc) {
    pc.Reading? || pc.Upgrading? || pc.Triggering? || pc.Verifying? || pc.Releasing?
  }

  predicate RunsSteps(pc: Pc) {
    pc.Upgrading? || pc.Triggering?
  }

  ghost predicate Init(w: World) {
    && w.lock.None?
    && forall j :: j in w.jobs ==>
         (w.jobs[j].pc == Starting || w.jobs[j].pc == Checking) && !w.jobs[j].wrote && !w.jobs[j].upgraded
             && !w.jobs[j].triggered
  }

  function Move(w: World, j: JobId, job: Job): World {
    w.(jobs := w.jobs[j := job])
  }

  /** What `check` answers for the revisions it read. */
  function CheckCode(job: Job, database: set<Revision>): int {
    if database == job.heads then EXIT_OK
    else if database - job.known != {} then EXIT_DATABASE_AHEAD
    else EXIT_PENDING
  }

  /** What `migrate` returns for the step result and the revisions read afterwards. */
  function FinalCode(job: Job, result: int, database: set<Revision>): int {
    if result == EXIT_OK && database != job.heads then EXIT_STEP_FAILED else result
  }

  /**
   * What job `j` can do next, on the shared lock and database; every read and step may also raise, which ends
   * in exit 1.
   */
  ghost predicate Moves(j: JobId, job: Job, lock: Option<JobId>, database: set<Revision>,
                        job': Job, lock': Option<JobId>, database': set<Revision>)
  {
    match job.pc
    case Starting =>
      && lock' == lock && database' == database
      && (job' == job.(pc := Trying) || job' == job.(pc := Exited(EXIT_STEP_FAILED)))
    case Trying =>
      && database' == database
      && if lock.None?
         then || (job' == job.(pc := Reading) && lock' == Some(j))
              || (job' == job.(pc := Exited(EXIT_STEP_FAILED)) && lock' == lock)
         else && lock' == lock
              && (|| job' == job
                  || job' == job.(pc := Exited(EXIT_LOCK_TIMEOUT))
                  || job' == job.(pc := Exited(EXIT_STEP_FAILED)))
    case Reading =>
      && lock' == lock && database' == database
      && (|| job' == job.(pc := if database - job.known != {} then Releasing(EXIT_DATABASE_AHEAD) else Upgrading)
          || job' == job.(pc := Releasing(EXIT_STEP_FAILED)))
    case Upgrading =>
      && lock' == lock
      && (|| (job' == job.(wrote := true) && database' <= job.known)
          || (job' == job.(pc := Triggering, upgraded := true) && database' == database)
          || (job' == job.(pc := Verifying(EXIT_STEP_FAILED)) && database' == database))
    case Triggering =>
      && lock' == lock && database' == database
      && (|| job' == job.(pc := Verifying(EXIT_OK), wrote := true, triggered := true)
          || job' == job.(pc := Verifying(EXIT_STEP_FAILED), wrote := true))
    case Verifying(result) =>
      && lock' == lock && database' == database
      && (job' == job.(pc := Releasing(FinalCode(job, result, database)))
          || job' == job.(pc := Releasing(EXIT_STEP_FAILED)))
    case Releasing(code) =>
      lock' == None && database' == database && job' == job.(pc := Exited(code))
    case Checking =>
      && lock' == lock && database' == database
      && (job' == job.(pc := Exited(CheckCode(job, database))) || job' == job.(pc := Exited(EXIT_STEP_FAILED)))
    case Exited(_) =>
      lock' == lock && database' == database && job' == job
  }

  /** One step of job `j`: it moves and every other job stays where it is. */
  ghost predicate JobStep(w: World, w': World, j: JobId) {
    && j in w.jobs && j in w'.jobs
    && w'.jobs == w.jobs[j := w'.jobs[j]]
    && Moves(j, w.jobs[j], w.lock, w.database, w'.jobs[j], w'.lock, w'.database)
  }

  ghost predicate Next(w: World, w': World) {
    exists j :: JobStep(w, w', j)
  }

  /** A finite interleaving of all jobs. */
  ghost predicate Behaviour(ws: seq<World>) {
    && ws != [] && Init(ws[0])
    && forall i :: 0 <= i < |ws| - 1 ==> Next(ws[i], ws[i + 1])
  }

  // ----- the inductive invariant -----

  predicate Quiet(pc: Pc) {
    pc == Exited(EXIT_LOCK_TIMEOUT) || pc == Exited(EXIT_DATABASE_AHEAD) || pc == Exited(EXIT_PENDING)
  }

  /** What a job's place says about its own history and the database. */
  ghost predicate History(job: Job, database: set<Revision>) {
    && (job.triggered ==> job.upgraded)
    && (job.pc.Starting? || job.pc.Trying? || job.pc.Reading? || job.pc.Checking? ==>
        !job.wrote && !job.upgraded && !job.triggered)
    && (job.pc == Upgrading ==> !job.upgraded && !job.triggered)
    && (job.pc == Triggering ==> job.upgraded && !job.triggered)
    && (job.pc.Verifying? ==> job.pc.result == EXIT_OK || job.pc.result == EXIT_STEP_FAILED)
    && (job.pc == Verifying(EXIT_OK) ==> job.triggered)
    && (job.pc.Releasing? ==>
        job.pc.code == EXIT_OK || job.pc.code == EXIT_STEP_FAILED || job.pc.code == EXIT_DATABASE_AHEAD)
    && (job.pc == Releasing(EXIT_OK) ==> job.triggered && database == job.heads)
    && (job.pc == Releasing(EXIT_DATABASE_AHEAD) ==> !job.wrote && !job.upgraded && database - job.known != {})
    && (Quiet(job.pc) ==> !job.wrote && !job.upgraded)
    && (job.pc == Exited(EXIT_OK) && job.wrote ==> job.triggered)
  }

  ghost predicate JobInv(w: World, j: JobId)
    requires j in w.jobs
  {
    (InLock(w.jobs[j].pc) <==> w.lock == Some(j)) && History(w.jobs[j], w.database)
  }

  ghost predicate Inv(w: World) {
    && (w.lock.Some? ==> w.lock.value in w.jobs)
    && forall j :: j in w.jobs ==> JobInv(w, j)
  }

  lemma InitInv(w: World)
    requires Init(w)
    ensures Inv(w)
  {
  }

  /** The moving job keeps its own part of the invariant: the lock side. */
  lemma MoverKeepsLock(w: World, w': World, j: JobId)
    requires Inv(w) && JobStep(w, w', j)
    ensures w'.jobs.Keys == w.jobs.Keys
    ensures InLock(w'.jobs[j].pc) <==> w'.lock == Some(j)
    ensures w'.lock.Some? ==> w'.lock.value in w'.jobs
  {
    assert JobInv(w, j);
  }

  /** And the history side. */
  lemma MoverKeepsHistory(w: World, w': World, j: JobId)
    requires JobStep(w, w', j) && History(w.jobs[j], w.database)
    ensures j in w'.jobs && History(w'.jobs[j], w'.database)
  {
  }

  /** A step writes the database only under the lock, and hands the lock only to or from the mover. */
  lemma StepFrame(w: World, w': World, j: JobId)
    requires Inv(w) && JobStep(w, w', j)
    ensures forall k :: k in w.jobs && k != j ==> k in w'.jobs && w'.jobs[k] == w.jobs[k]
    ensures w'.database != w.database ==>
              w.lock == Some(j) && w'.lock == Some(j) && w.jobs[j].pc == Upgrading && w'.jobs[j].wrote
    ensures w'.lock != w.lock ==> (w.lock.None? && w'.lock == Some(j)) || (w.lock == Some(j) && w'.lock.None?)
  {
    assert JobInv(w, j);
  }

  lemma NextInv(w: World, w': World)
    requires Inv(w) && Next(w, w')
    ensures Inv(w')
  {
    var j :| JobStep(w, w', j);
    assert JobInv(w, j);
    MoverKeepsLock(w, w', j);
    MoverKeepsHistory(w, w', j);
    StepFrame(w, w', j);
    forall k | k in w'.jobs ensures JobInv(w', k) {
      if k != j {
        assert JobInv(w, k);
      }
    }
  }

  lemma {:induction false} AlwaysInv(ws: seq<World>, i: nat)
    requires Behaviour(ws) && i < |ws|
    ensures Inv(ws[i])
  {
    if i == 0 {
      InitInv(ws[0]);
    } else {
      AlwaysInv(ws, i - 1);
      assert Next(ws[i - 1], ws[(i - 1) + 1]);
      NextInv(ws[i - 1], ws[i]);
    }
  }

  // ----- what holds in every interleaving -----

  /** At most one job runs steps, at every moment of every run. */
  lemma MutualExclusion(ws: seq<World>, i: nat, j: JobId, k: JobId)
    requires Behaviour(ws) && i < |ws| && j in ws[i].jobs && k in ws[i].jobs
    requires RunsSteps(ws[i].jobs[j].pc) && RunsSteps(ws[i].jobs[k].pc)
    ensures j == k
  {
    AlwaysInv(ws, i);
    assert JobInv(ws[i], j) && JobInv(ws[i], k);
  }

  /** Triggers run only after this same job's own upgrade succeeded. */
  lemma TriggersAfterUpgrade(ws: seq<World>, i: nat, j: JobId)
    requires Behaviour(ws) && i < |ws| && j in ws[i].jobs
    ensures ws[i].jobs[j].pc == Triggering || ws[i].jobs[j].triggered ==> ws[i].jobs[j].upgraded
  {
    AlwaysInv(ws, i);
    assert JobInv(ws[i], j);
  }

  /** What a job has done stays done. */
  lemma HistoryStays(w: World, w': World, j: JobId)
    requires Inv(w) && Next(w, w') && j in w.jobs
    ensures j in w'.jobs && (w.jobs[j].wrote ==> w'.jobs[j].wrote) && (w.jobs[j].upgraded ==> w'.jobs[j].upgraded)
  {
    var m :| JobStep(w, w', m);
    StepFrame(w, w', m);
    MoverKeepsLock(w, w', m);
  }

  lemma {:induction false} HistoryStaysLong(ws: seq<World>, a: nat, b: nat, j: JobId)
    requires Behaviour(ws) && a <= b < |ws| && j in ws[a].jobs
    ensures j in ws[b].jobs
    ensures (ws[a].jobs[j].wrote ==> ws[b].jobs[j].wrote) && (ws[a].jobs[j].upgraded ==> ws[b].jobs[j].upgraded)
    decreases b - a
  {
    if a < b {
      HistoryStaysLong(ws, a, b - 1, j);
      AlwaysInv(ws, b - 1);
      assert Next(ws[b - 1], ws[(b - 1) + 1]);
      HistoryStays(ws[b - 1], ws[b], j);
    }
  }

  /** Step `k` of the run is a step of job `j` that changes the database or begins the triggers. */
  ghost predicate ChangesAt(ws: seq<World>, k: nat, j: JobId)
    requires k + 1 < |ws|
  {
    && JobStep(ws[k], ws[k + 1], j)
    && (ws[k + 1].database != ws[k].database || ws[k + 1].jobs[j].pc == Triggering)
  }

  /**
   * Lock timeout, database ahead and pending all mean that the job changed nothing: no step it ever took
   * changed the database or began the triggers, so every change of the database was somebody else's.
   */
  lemma QuietExits(ws: seq<World>, i: nat, j: JobId, k: nat)
    requires Behaviour(ws) && k < i < |ws| && j in ws[i].jobs && ws[i].jobs[j].pc.Exited?
    requires var code := ws[i].jobs[j].pc.code; code == 2 || code == 3 || code == 4
    ensures !ChangesAt(ws, k, j)
    ensures var w, w' := ws[k], ws[k + 1]; w.database != w'.database ==> exists m :: m != j && JobStep(w, w', m)
  {
    AlwaysInv(ws, i);
    AlwaysInv(ws, k);
    AlwaysInv(ws, k + 1);
    assert JobInv(ws[i], j);
    assert Next(ws[k], ws[k + 1]);
    if JobStep(ws[k], ws[k + 1], j) {
      StepFrame(ws[k], ws[k + 1], j);
      assert JobInv(ws[k + 1], j);
      HistoryStaysLong(ws, k + 1, i, j);
    }
  }

  /** A job that leaves with success leaves the database exactly at its own heads. */
  lemma SuccessMeansAtHeads(ws: seq<World>, i: nat, j: JobId)
    requires Behaviour(ws) && i + 1 < |ws| && j in ws[i].jobs && j in ws[i + 1].jobs
    requires ws[i].jobs[j].pc != Exited(EXIT_OK) && ws[i + 1].jobs[j].pc == Exited(EXIT_OK)
    ensures ws[i + 1].database == ws[i].database == ws[i].jobs[j].heads
    ensures ws[i].jobs[j].pc != Checking ==> ws[i].jobs[j].triggered
  {
    AlwaysInv(ws, i);
    var w, w' := ws[i], ws[i + 1];
    assert Next(w, w');
    var m :| JobStep(w, w', m);
    StepFrame(w, w', m);
    assert m == j;
    assert JobInv(w, j);
  }

  /** Steps that ended well over a database at the job's heads give success, unless the second read raises. */
  lemma AtHeadsMeansSuccess(w: World, w': World, j: JobId)
    requires JobStep(w, w', j) && w.jobs[j].pc == Verifying(EXIT_OK) && w'.jobs[j].pc.Releasing?
    ensures w'.jobs[j].pc.code == 0 || w'.jobs[j].pc.code == 1
    ensures w'.jobs[j].pc.code == 0 ==> w.database == w.jobs[j].heads
    ensures exists quiet: World :: JobStep(w, quiet, j) && quiet.jobs[j].pc.Releasing?
                                && (quiet.jobs[j].pc.code == 0 <==> w.database == w.jobs[j].heads)
  {
    var quiet := Move(w, j, w.jobs[j].(pc := Releasing(FinalCode(w.jobs[j], EXIT_OK, w.database))));
    assert JobStep(w, quiet, j);
  }

  /** Of a job whose steps failed the code says so, whatever the database holds. */
  lemma FailedStepsFail(w: World, w': World, j: JobId)
    requires JobStep(w, w', j) && w.jobs[j].pc == Verifying(EXIT_STEP_FAILED)
    ensures w'.jobs[j].pc == Releasing(1)
  {
  }

  /**
   * What `--check` answers unless the read raises: 0 at the heads, 4 over a revision its code does not know, and 3
   * when all are known and some are missing.
   */
  lemma CheckMeans(w: World, w': World, j: JobId)
    requires JobStep(w, w', j) && w.jobs[j].pc == Checking && w'.jobs[j].pc != Exited(1)
    ensures w'.jobs[j].pc == Exited(if w.database == w.jobs[j].heads then 0
                                    else if exists r :: r in w.database && r !in w.jobs[j].known then 4 else 3)
    ensures w'.database == w.database && w'.lock == w.lock
  {
    var unknown := w.database - w.jobs[j].known;
    if r :| r in w.database && r !in w.jobs[j].known {
      assert r in unknown;
    } else {
      assert unknown == {};
    }
  }

  /**
   * What the first read decides unless it raises: a revision the code does not know ends the job with 4, else
   * steps start.
   */
  lemma FirstReadMeans(w: World, w': World, j: JobId)
    requires JobStep(w, w', j) && w.jobs[j].pc == Reading && w'.jobs[j].pc != Releasing(1)
    ensures w'.jobs[j].pc == if exists r :: r in w.database && r !in w.jobs[j].known then Releasing(4) else Upgrading
  {
    var unknown := w.database - w.jobs[j].known;
    if r :| r in w.database && r !in w.jobs[j].known {
      assert r in unknown;
    } else {
      assert unknown == {};
    }
  }

  /** A job gives up waiting only while another one holds the lock, and takes the lock only when it is free. */
  lemma WaitingMeans(w: World, w': World, j: JobId)
    requires Inv(w) && JobStep(w, w', j) && w.jobs[j].pc == Trying
    ensures var pc := w'.jobs[j].pc; pc == Trying || pc == Reading || pc == Exited(2) || pc == Exited(1)
    ensures w'.jobs[j].pc == Exited(2) ==> w.lock.Some? && w.lock.value != j
    ensures w'.jobs[j].pc == Reading <==> w.lock.None? && w'.lock == Some(j)
  {
    assert JobInv(w, j);
  }

  function One(lock: Option<JobId>, database: set<Revision>, job: Job): World {
    World(lock, database, map[0 := job])
  }

  /**
   * Nothing keeps a job from finishing: over any database its code knows some run of it alone ends with
   * success at its heads.
   */
  lemma SomeRunSucceeds(known: set<Revision>, heads: set<Revision>, database: set<Revision>) returns (ws: seq<World>)
    requires database <= known && heads <= known
    ensures Behaviour(ws) && ws[0].database == database && ws[0].jobs.Keys == {0}
    ensures var job := ws[0].jobs[0]; job.pc == Starting && job.known == known && job.heads == heads
    ensures var end := ws[|ws| - 1];
            0 in end.jobs && end.jobs[0].pc == Exited(0) && end.database == heads && end.lock.None?
  {
    var job := Job(Starting, known, heads, false, false, false);
    var up := job.(wrote := true);
    var done := up.(upgraded := true);
    var all := done.(triggered := true);
    ws := [One(None, database, job),
           One(None, database, job.(pc := Trying)),
           One(Some(0), database, job.(pc := Reading)),
           One(Some(0), database, job.(pc := Upgrading)),
           One(Some(0), heads, up.(pc := Upgrading)),
           One(Some(0), heads, done.(pc := Triggering)),
           One(Some(0), heads, all.(pc := Verifying(EXIT_OK))),
           One(Some(0), heads, all.(pc := Releasing(EXIT_OK))),
           One(None, heads, all.(pc := Exited(EXIT_OK)))];
    assert database - known == {};
    forall i | 0 <= i < |ws| - 1 ensures Next(ws[i], ws[i + 1]) {
      assert ws[i + 1].jobs == ws[i].jobs[0 := ws[i + 1].jobs[0]];
      assert JobStep(ws[i], ws[i + 1], 0);
    }
  }

  /** A job that waits may give up, and one that reads may raise, at any moment. */
  lemma WaitingMayEnd(w: World, j: JobId) returns (w': World)
    requires j in w.jobs && w.jobs[j].pc == Trying && w.lock.Some?
    ensures JobStep(w, w', j) && w'.jobs[j].pc == Exited(2)
  {
    w' := Move(w, j, w.jobs[j].(pc := Exited(EXIT_LOCK_TIMEOUT)));
  }

  lemma ReadingMayRaise(w: World, j: JobId) returns (w': World)
    requires j in w.jobs
    requires var pc := w.jobs[j].pc; pc.Starting? || pc.Trying? || pc.Reading? || pc.Verifying? || pc.Checking?
    ensures JobStep(w, w', j)
    ensures w'.jobs[j].pc == if InLock(w.jobs[j].pc) then Releasing(1) else Exited(1)
  {
    w' := Move(w, j,
               w.jobs[j].(pc := if InLock(w.jobs[j].pc) then Releasing(EXIT_STEP_FAILED)
                          else Exited(EXIT_STEP_FAILED)));
  }

  /** An upgrade may stop after any revisions its code knows, and it may fail there. */
  lemma UpgradeMayStop(w: World, j: JobId, next: set<Revision>) returns (w': World, w'': World)
    requires j in w.jobs && w.jobs[j].pc == Upgrading && next <= w.jobs[j].known
    ensures JobStep(w, w', j) && w'.database == next && w'.jobs[j].pc == Upgrading
    ensures JobStep(w', w'', j) && w''.database == next && w''.jobs[j].pc == Verifying(1)
  {
    w' := Move(w, j, w.jobs[j].(wrote := true)).(database := next);
    w'' := Move(w', j, w'.jobs[j].(pc := Verifying(EXIT_STEP_FAILED)));
  }

  /**
   * The lock is released on every path: once no job is between lock and unlock it is free, so a finished run
   * leaves it free.
   */
  lemma LockIsReleased(ws: seq<World>, i: nat)
    requires Behaviour(ws) && i < |ws|
    ensures ws[i].lock.None? <==> forall j :: j in ws[i].jobs ==> !InLock(ws[i].jobs[j].pc)
  {
    AlwaysInv(ws, i);
    if ws[i].lock.Some? {
      assert JobInv(ws[i], ws[i].lock.value);
    } else {
      forall j | j in ws[i].jobs ensures !InLock(ws[i].jobs[j].pc) {
        assert JobInv(ws[i], j);
      }
    }
  }

  /** While a job holds the lock nobody else touches the database: what it reads at the end is its own work. */
  lemma {:induction false} HolderOwnsDatabase(ws: seq<World>, a: nat, b: nat, j: JobId)
    requires Behaviour(ws) && a <= b < |ws|
    requires forall i :: a <= i <= b ==> ws[i].lock == Some(j)
    requires ws[a].database != ws[b].database
    ensures j in ws[b].jobs && ws[b].jobs[j].wrote
    decreases b - a
  {
    AlwaysInv(ws, b - 1);
    var w, w' := ws[b - 1], ws[(b - 1) + 1];
    assert Next(w, w');
    var m :| JobStep(w, w', m);
    StepFrame(w, w', m);
    MoverKeepsLock(w, w', m);
    if ws[a].database != w.database {
      HolderOwnsDatabase(ws, a, b - 1, j);
      HistoryStays(w, w', j);
    }
  }

  /** A job upgrades only a database all of whose revisions its own code knows. */
  lemma UpgradesOnlyKnown(ws: seq<World>, i: nat, j: JobId)
    requires Behaviour(ws) && i + 1 < |ws| && j in ws[i].jobs && j in ws[i + 1].jobs
    requires ws[i].jobs[j].pc == Reading && ws[i + 1].jobs[j].pc == Upgrading
    ensures ws[i].database <= ws[i].jobs[j].known
  {
    AlwaysInv(ws, i);
    var w, w' := ws[i], ws[i + 1];
    assert Next(w, w');
    var m :| JobStep(w, w', m);
    StepFrame(w, w', m);
    assert m == j;
    assert w.database - w.jobs[j].known == {};
    assert w.database <= (w.database - w.jobs[j].known) + w.jobs[j].known;
  }

  /**
   * The lock goes while the holder's steps still run: the server dropped its session, or the run was cancelled
   * while it waited for the thread of the steps and its clean-up unlocked.
   */
  ghost predicate SessionLost(w: World, w': World, j: JobId) {
    w.lock == Some(j) && w' == w.(lock := None)
  }

  /**
   * Why sessions must stay alive and running jobs must not be cancelled: from any such moment a waiting job
   * whose code knows the database joins the running one.
   */
  lemma LostSessionBreaksExclusion(w: World, j: JobId, k: JobId) returns (lost: World, locked: World, both: World)
    requires Inv(w) && j in w.jobs && k in w.jobs
    requires w.jobs[j].pc == Upgrading && w.jobs[k].pc == Trying && w.database <= w.jobs[k].known
    ensures SessionLost(w, lost, j) && JobStep(lost, locked, k) && JobStep(locked, both, k)
    ensures j != k && RunsSteps(both.jobs[j].pc) && RunsSteps(both.jobs[k].pc)
  {
    assert JobInv(w, j);
    lost := w.(lock := None);
    locked := Move(lost, k, w.jobs[k].(pc := Reading)).(lock := Some(k));
    both := Move(locked, k, w.jobs[k].(pc := Upgrading));
    assert w.database - w.jobs[k].known == {};
  }
}
