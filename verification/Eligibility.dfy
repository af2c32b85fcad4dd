/** Is it safe to stop production now? The pure part of scripts/sleep_eligibility.py. */
module Eligibility {
  import opened Relational
  import opened Sums

  datatype TaskState = Open | Pending | InProgress | Retrying | RetryScheduled

  /** A `(task_type, state)` key of the counts read from the database. */
  datatype TaskKey = TaskKey(taskType: string, state: TaskState)

  type Counts = map<TaskKey, nat>

  const UNMAPPED := "unmapped"

  /**
   * Which queue the router gives each task type, if any, and which queues a worker drains. Everything below
   * holds for every router.
   */
  datatype Router = Router(queueOf: map<string, string>, consumed: set<string>)

  predicate IsOrphan(router: Router, taskType: string) {
    taskType !in router.queueOf || router.queueOf[taskType] !in router.consumed
  }

  function OrphanKey(router: Router, taskType: string): string {
    if taskType in router.queueOf && router.queueOf[taskType] != "" then router.queueOf[taskType] else UNMAPPED
  }

  /** Some worker will still have to do something for this key. */
  predicate Blocking(router: Router, counts: Counts, key: TaskKey) {
    key in counts && counts[key] != 0 && !IsOrphan(router, key.taskType)
  }

  /** `m` lists the consumed types with work in state `s`, and how much. */
  ghost predicate Lists(router: Router, counts: Counts, s: TaskState, m: map<string, int>) {
    && (forall t :: t in m <==> Blocking(router, counts, TaskKey(t, s)))
    && (forall t :: t in m ==> m[t] == counts[TaskKey(t, s)])
  }

  datatype Summary = Summary(
    byState: map<TaskState, int>,
    typesByState: map<TaskState, map<string, int>>,
    retryDue: int,
    retryDueTypes: map<string, int>,
    orphan: map<string, int>)

  function Bucket(m: map<TaskState, map<string, int>>, s: TaskState): map<string, int> {
    if s in m then m[s] else map[]
  }

  function DueTypes(router: Router, retryDue: map<string, nat>): map<string, int> {
    map t | t in retryDue && retryDue[t] != 0 && !IsOrphan(router, t) :: retryDue[t]
  }

  function KeepOnly(counts: Counts, keys: set<TaskKey>): Counts {
    map k | k in counts && k in keys :: counts[k]
  }

  /** What the summarizing loop has established for the keys it has seen. */
  ghost predicate Tallied(router: Router, seen: Counts, sum: Summary) {
    && (forall s :: Lists(router, seen, s, Bucket(sum.typesByState, s)))
    && (forall s :: At(sum.byState, s) == Total(Bucket(sum.typesByState, s)))
    && Total(sum.byState) + Total(sum.orphan) == Total(seen)
  }

  /** One turn of the summarizing loop. */
  function Absorb(router: Router, sum: Summary, k: TaskKey, n: nat): Summary {
    if n == 0 then sum
    else if IsOrphan(router, k.taskType) then
      var q := OrphanKey(router, k.taskType);
      sum.(orphan := sum.orphan[q := At(sum.orphan, q) + n])
    else
      var bucket := Bucket(sum.typesByState, k.state);
      sum.(byState := sum.byState[k.state := At(sum.byState, k.state) + n],
           typesByState := sum.typesByState[k.state := bucket[k.taskType := At(bucket, k.taskType) + n]])
  }

  /** What one more count adds to the types that block in state `s`. */
  lemma BlockingStep(router: Router, seen: Counts, k: TaskKey, n: nat, t: string, s: TaskState)
    requires k !in seen
    ensures Blocking(router, seen[k := n], TaskKey(t, s)) <==>
              Blocking(router, seen, TaskKey(t, s)) || (TaskKey(t, s) == k && n != 0 && !IsOrphan(router, t))
  {
  }

  lemma AbsorbElsewhere(router: Router, seen: Counts, sum: Summary, k: TaskKey, n: nat, s: TaskState)
    requires Lists(router, seen, s, Bucket(sum.typesByState, s)) && k !in seen
    requires n == 0 || IsOrphan(router, k.taskType) || s != k.state
    ensures var sum' := Absorb(router, sum, k, n);
            && Lists(router, seen[k := n], s, Bucket(sum.typesByState, s))
            && Bucket(sum'.typesByState, s) == Bucket(sum.typesByState, s)
            && At(sum'.byState, s) == At(sum.byState, s)
  {
    forall t ensures Blocking(router, seen[k := n], TaskKey(t, s)) <==> Blocking(router, seen, TaskKey(t, s)) {
      BlockingStep(router, seen, k, n, t, s);
    }
  }

  lemma ListsBump(router: Router, seen: Counts, k: TaskKey, n: nat, bucket: map<string, int>)
    requires Lists(router, seen, k.state, bucket) && k !in seen
    requires n != 0 && !IsOrphan(router, k.taskType)
    ensures k.taskType !in bucket
    ensures Lists(router, seen[k := n], k.state, bucket[k.taskType := n])
  {
    assert k == TaskKey(k.taskType, k.state);
    forall t ensures Blocking(router, seen[k := n], TaskKey(t, k.state)) <==>
        Blocking(router, seen, TaskKey(t, k.state)) || t == k.taskType {
      BlockingStep(router, seen, k, n, t, k.state);
    }
  }

  lemma AbsorbTypes(router: Router, seen: Counts, sum: Summary, k: TaskKey, n: nat, s: TaskState)
    requires Lists(router, seen, s, Bucket(sum.typesByState, s)) && k !in seen
    requires At(sum.byState, s) == Total(Bucket(sum.typesByState, s))
    ensures var sum' := Absorb(router, sum, k, n);
            && Lists(router, seen[k := n], s, Bucket(sum'.typesByState, s))
            && At(sum'.byState, s) == Total(Bucket(sum'.typesByState, s))
  {
    if n != 0 && !IsOrphan(router, k.taskType) && s == k.state {
      var bucket := Bucket(sum.typesByState, s);
      ListsBump(router, seen, k, n, bucket);
      TotalBump(bucket, k.taskType, n);
    } else {
      AbsorbElsewhere(router, seen, sum, k, n, s);
    }
  }

  lemma AbsorbTotal(router: Router, seen: Counts, sum: Summary, k: TaskKey, n: nat)
    requires Total(sum.byState) + Total(sum.orphan) == Total(seen) && k !in seen
    ensures var sum' := Absorb(router, sum, k, n); Total(sum'.byState) + Total(sum'.orphan) == Total(seen[k := n])
  {
    TotalBump(seen, k, n);
    assert At<TaskKey>(seen, k) == 0;
    if n != 0 && IsOrphan(router, k.taskType) {
      TotalBump(sum.orphan, OrphanKey(router, k.taskType), n);
    } else if n != 0 {
      TotalBump(sum.byState, k.state, n);
    }
  }

  lemma AbsorbStep(router: Router, seen: Counts, sum: Summary, k: TaskKey, n: nat)
    requires Tallied(router, seen, sum) && k !in seen
    ensures Tallied(router, seen[k := n], Absorb(router, sum, k, n))
  {
    var sum' := Absorb(router, sum, k, n);
    forall s ensures Lists(router, seen[k := n], s, Bucket(sum'.typesByState, s))
        && At(sum'.byState, s) == Total(Bucket(sum'.typesByState, s)) {
      AbsorbTypes(router, seen, sum, k, n, s);
    }
    AbsorbTotal(router, seen, sum, k, n);
  }

  /** Some worker drains the queue the router gives this task type. */
  predicate Consumed(router: Router, t: string) {
    t in router.queueOf && router.queueOf[t] in router.consumed
  }

  /** The counts of the types no worker will pick up. */
  function OrphanCounts(router: Router, counts: Counts): map<TaskKey, int> {
    map k | k in counts && !Consumed(router, k.taskType) :: counts[k]
  }

  /** The queue an orphan waits in, or the catch-all when it has none. */
  function OrphanQueue(router: Router): TaskKey -> string {
    (k: TaskKey) => if k.taskType in router.queueOf && router.queueOf[k.taskType] != "" then router.queueOf[k.taskType]
                    else "unmapped"
  }

  /** Each orphan queue's total is the sum of the counts of the orphans that wait there. */
  ghost predicate OrphansTold(router: Router, counts: Counts, orphan: map<string, int>) {
    forall q :: At(orphan, q) == GroupTotal(OrphanCounts(router, counts), OrphanQueue(router), q)
  }

  lemma OrphansStep(router: Router, seen: Counts, sum: Summary, k: TaskKey, n: nat)
    requires OrphansTold(router, seen, sum.orphan) && k !in seen
    ensures OrphansTold(router, seen[k := n], Absorb(router, sum, k, n).orphan)
  {
    var m, next := OrphanCounts(router, seen), OrphanCounts(router, seen[k := n]);
    var orphan := Absorb(router, sum, k, n).orphan;
    if Consumed(router, k.taskType) {
      assert next == m;
    } else {
      assert next == m[k := At(m, k) + n];
      forall q ensures At(orphan, q) == GroupTotal(next, OrphanQueue(router), q) {
        GroupTotalBump(m, OrphanQueue(router), k, n, q);
      }
    }
  }

  function Blank(orphanQueues: set<string>): Summary {
    Summary(map[Open := 0, Pending := 0, InProgress := 0, Retrying := 0, RetryScheduled := 0],
            map[Open := map[], Pending := map[], InProgress := map[], Retrying := map[], RetryScheduled := map[]],
            0, map[], map q | q in orphanQueues :: 0)
  }

  lemma NoOrphansYet(router: Router, orphanQueues: set<string>)
    ensures OrphansTold(router, map[], Blank(orphanQueues).orphan)
  {
    assert OrphanCounts(router, map[]) == map[];
    forall q ensures At(Blank(orphanQueues).orphan, q) ==
        GroupTotal(OrphanCounts(router, map[]), OrphanQueue(router), q) {
      assert Group(OrphanCounts(router, map[]).Keys, OrphanQueue(router), q) == {};
    }
  }

  lemma ZeroTotal<K>(m: map<K, int>)
    requires forall k :: k in m ==> m[k] == 0
    ensures Total(m) == 0
  {
    SumZero(m.Keys, k => At(m, k));
  }

  lemma BlankIsTallied(router: Router, orphanQueues: set<string>)
    ensures Tallied(router, map[], Blank(orphanQueues))
  {
    var blank := Blank(orphanQueues);
    ZeroTotal(blank.byState);
    ZeroTotal(blank.orphan);
    ZeroTotal<TaskKey>(map[]);
    ZeroTotal<string>(map[]);
    forall s ensures Bucket(blank.typesByState, s) == map[] && At(blank.byState, s) == 0 {
    }
  }

  /** `sum(m.values())`. */
  method SumOf(m: map<string, int>) returns (total: int)
    ensures total == Total(m)
  {
    total := 0;
    var rest := m.Keys;
    ghost var f := (k: string) => At(m, k);
    while rest != {}
      invariant rest <= m.Keys && total + Sum(rest, f) == Total(m)
      decreases rest
    {
      var k :| k in rest;
      SumPick(rest, f, k);
      total := total + m[k];
      rest := rest - {k};
    }
  }

  /**
   * The summary conserves work whatever the counts and whatever order they are read in: all counts are the
   * state totals plus the orphan totals, and each state total is the sum of the types listed under it.
   */
  method SummarizeTasks(router: Router, counts: Counts, retryDue: map<string, nat>) returns (sum: Summary)
    ensures Tallied(router, counts, sum) && OrphansTold(router, counts, sum.orphan)
    ensures sum.retryDueTypes == DueTypes(router, retryDue) && sum.retryDue == Total(DueTypes(router, retryDue))
  {
    var queues := set t | t in router.queueOf :: router.queueOf[t];
    sum := Blank(queues - router.consumed);
    BlankIsTallied(router, queues - router.consumed);
    NoOrphansYet(router, queues - router.consumed);
    var rest := counts.Keys;
    ghost var seen: Counts := map[];
    while rest != {}
      invariant rest <= counts.Keys
      invariant seen == KeepOnly(counts, counts.Keys - rest)
      invariant Tallied(router, seen, sum) && OrphansTold(router, seen, sum.orphan)
      decreases rest
    {
      var k :| k in rest;
      AbsorbStep(router, seen, sum, k, counts[k]);
      OrphansStep(router, seen, sum, k, counts[k]);
      sum := Absorb(router, sum, k, counts[k]);
      seen := seen[k := counts[k]];
      rest := rest - {k};
    }
    assert seen == counts;
    var due := DueTypes(router, retryDue);
    var total := SumOf(due);
    sum := sum.(retryDue := total, retryDueTypes := due);
  }

  // ----- what the numbers mean -----

  predicate HasWork(router: Router, counts: Counts, s: TaskState) {
    exists k :: k in counts && k.state == s && Blocking(router, counts, k)
  }

  lemma PositiveTotal<K>(m: map<K, int>)
    requires forall k :: k in m ==> m[k] > 0
    ensures Total(m) >= 0 && (Total(m) != 0 <==> m != map[])
  {
    SumZero(m.Keys, k => At(m, k));
    if m != map[] {
      var k :| k in m;
      assert At(m, k) != 0;
    }
  }

  /** A state total is non-zero exactly when some consumed type has work in that state. */
  lemma StateTotalMeansWork(router: Router, counts: Counts, sum: Summary, s: TaskState)
    requires Tallied(router, counts, sum)
    ensures At(sum.byState, s) >= 0 && (At(sum.byState, s) != 0 <==> HasWork(router, counts, s))
  {
    var bucket := Bucket(sum.typesByState, s);
    assert Lists(router, counts, s, bucket);
    PositiveTotal(bucket);
    if bucket != map[] {
      var t :| t in bucket;
      assert Blocking(router, counts, TaskKey(t, s));
    }
    if HasWork(router, counts, s) {
      var k :| k in counts && k.state == s && Blocking(router, counts, k);
      assert k == TaskKey(k.taskType, s);
      assert k.taskType in bucket;
    }
  }

  /** The merged per-type counts of two states. */
  function MergeCounts(a: map<string, int>, b: map<string, int>): map<string, int> {
    map t | t in a.Keys + b.Keys :: At(a, t) + At(b, t)
  }

  lemma TotalOver(m: map<string, int>, keys: set<string>)
    requires m.Keys <= keys
    ensures Sum(keys, t => At(m, t)) == Total(m)
  {
    var f := (t: string) => At(m, t);
    var extra := keys - m.Keys;
    SumDisjoint(m.Keys, extra, f);
    assert m.Keys + extra == keys;
    SumZero(extra, f);
  }

  lemma MergeTotal(a: map<string, int>, b: map<string, int>)
    ensures Total(MergeCounts(a, b)) == Total(a) + Total(b)
  {
    var keys := a.Keys + b.Keys;
    var m := MergeCounts(a, b);
    TotalOver(a, keys);
    TotalOver(b, keys);
    assert m.Keys == keys;
    SumAdds(keys, t => At(a, t), t => At(b, t), t => At(m, t));
  }

  function Backlog(router: Router, lengths: map<string, nat>): map<string, int> {
    map q | q in lengths && q in router.consumed && lengths[q] != 0 :: lengths[q]
  }

  // ----- the verdict -----

  datatype Facts = Facts(
    lastActivity: Option<real>,
    startedAt: Option<real>,      // from the API heartbeat, where it has one
    counts: Counts,
    retryDue: map<string, nat>,
    queueLengths: map<string, nat>,
    migrationLock: bool,
    migrateSessions: nat,
    copySessions: nat)

  datatype Basis = HumanActivity | ApiStart

  datatype Reason =
    | ActivityUnknown
    | RecentActivity(idle: real, threshold: real, basis: Basis)
    | ActivitySince(since: real, last: real)
    | TasksInProgress(count: int, types: map<string, int>)
    | TasksOpen(count: int, types: map<string, int>)
    | TasksPending(count: int, types: map<string, int>)
    | RetryDue(count: int, types: map<string, int>)
    | QueueNotEmpty(queues: map<string, int>)
    | MigrationRunning(advisoryLock: bool, sessions: nat)
    | CopyRunning(sessions: nat)
    | Host(code: string, detail: Option<string>)
    | CheckFailed(message: string)

  predicate DueWork(router: Router, retryDue: map<string, nat>) {
    exists t :: t in retryDue && retryDue[t] != 0 && !IsOrphan(router, t)
  }

  predicate QueuedWork(router: Router, lengths: map<string, nat>) {
    exists q :: q in lengths && q in router.consumed && lengths[q] != 0
  }

  /** Some activity reference exists and every one of them is at least the threshold old. */
  predicate Idle(f: Facts, idleSeconds: real, now: real) {
    && (f.lastActivity.Some? || f.startedAt.Some?)
    && (f.lastActivity.Some? ==> now - f.lastActivity.value >= idleSeconds)
    && (f.startedAt.Some? ==> now - f.startedAt.value >= idleSeconds)
  }

  predicate QuietSince(f: Facts, since: Option<real>) {
    since.Some? && f.lastActivity.Some? ==> f.lastActivity.value < since.value
  }

  /** The specification: nothing anywhere that stopping now would interrupt. */
  predicate SafeToStop(router: Router, f: Facts, idleSeconds: real, since: Option<real>,
                       hostReasons: seq<(string, Option<string>)>, now: real) {
    && Idle(f, idleSeconds, now) && QuietSince(f, since)
    && !HasWork(router, f.counts, InProgress) && !HasWork(router, f.counts, Retrying)
    && !HasWork(router, f.counts, Open) && !HasWork(router, f.counts, Pending)
    && !DueWork(router, f.retryDue) && !QueuedWork(router, f.queueLengths)
    && !f.migrationLock && f.migrateSessions == 0 && f.copySessions == 0
    && hostReasons == []
  }

  /** The per-type counts a reason lists. */
  function Listed(r: Reason): map<string, int> {
    match r
    case TasksInProgress(_, types) => types
    case TasksOpen(_, types) => types
    case TasksPending(_, types) => types
    case RetryDue(_, types) => types
    case _ => map[]
  }

  /** What a reason is about. */
  datatype Kind =
    | Activity | Running | Unrouted | Queued | DueRetry | Backlogged | Migrating | Copying | HostFact | Failure

  function KindOf(r: Reason): Kind {
    match r
    case ActivityUnknown => Activity
    case RecentActivity(_, _, _) => Activity
    case ActivitySince(_, _) => Activity
    case TasksInProgress(_, _) => Running
    case TasksOpen(_, _) => Unrouted
    case TasksPending(_, _) => Queued
    case RetryDue(_, _) => DueRetry
    case QueueNotEmpty(_) => Backlogged
    case MigrationRunning(_, _) => Migrating
    case CopyRunning(_) => Copying
    case Host(_, _) => HostFact
    case CheckFailed(_) => Failure
  }

  /** A reported count is the sum of the types listed beside it. */
  ghost predicate Honest(r: Reason) {
    (r.TasksInProgress? || r.TasksOpen? || r.TasksPending? || r.RetryDue?) ==> r.count == Total(Listed(r))
  }

  function StateCount(counts: Counts, s: TaskState): string -> int {
    (t: string) => if TaskKey(t, s) in counts then counts[TaskKey(t, s)] else 0
  }

  function RunningCount(counts: Counts): string -> int {
    (t: string) => StateCount(counts, InProgress)(t) + StateCount(counts, Retrying)(t)
  }

  function DueCount(retryDue: map<string, nat>): string -> int {
    (t: string) => if t in retryDue then retryDue[t] else 0
  }

  /** `types` lists exactly the consumed types that `n` counts, with those counts. */
  ghost predicate TypesAre(router: Router, types: map<string, int>, n: string -> int) {
    forall t :: (t in types <==> Consumed(router, t) && n(t) != 0) && (t in types ==> types[t] == n(t))
  }

  /** What the reason says is what was read. */
  ghost predicate Accurate(router: Router, f: Facts, idleSeconds: real, since: Option<real>, now: real, r: Reason) {
    match r
    case ActivityUnknown => f.lastActivity.None? && f.startedAt.None?
    case RecentActivity(idle, threshold, HumanActivity) =>
      && threshold == idleSeconds && f.lastActivity == Some(now - idle)
      && (f.startedAt.Some? ==> f.startedAt.value <= now - idle)
    case RecentActivity(idle, threshold, ApiStart) =>
      && threshold == idleSeconds && f.startedAt == Some(now - idle)
      && (f.lastActivity.Some? ==> f.lastActivity.value < now - idle)
    case ActivitySince(s, last) => since == Some(s) && f.lastActivity == Some(last)
    case TasksInProgress(_, types) => TypesAre(router, types, RunningCount(f.counts))
    case TasksOpen(_, types) => TypesAre(router, types, StateCount(f.counts, Open))
    case TasksPending(_, types) => TypesAre(router, types, StateCount(f.counts, Pending))
    case RetryDue(_, types) => TypesAre(router, types, DueCount(f.retryDue))
    case QueueNotEmpty(queues) =>
      forall q :: (q in queues <==> q in router.consumed && q in f.queueLengths && f.queueLengths[q] != 0)
               && (q in queues ==> queues[q] == f.queueLengths[q])
    case MigrationRunning(lock, sessions) => lock == f.migrationLock && sessions == f.migrateSessions
    case CopyRunning(sessions) => sessions == f.copySessions
    case Host(_, _) => true
    case CheckFailed(_) => false
  }

  ghost predicate AllAccurate(router: Router, f: Facts, idleSeconds: real, since: Option<real>, now: real,
                              reasons: seq<Reason>) {
    forall i :: 0 <= i < |reasons| ==> Accurate(router, f, idleSeconds, since, now, reasons[i])
  }

  lemma AccurateConcat(router: Router, f: Facts, idleSeconds: real, since: Option<real>, now: real, a: seq<Reason>,
                       b: seq<Reason>)
    requires AllAccurate(router, f, idleSeconds, since, now, a) && AllAccurate(router, f, idleSeconds, since, now, b)
    ensures AllAccurate(router, f, idleSeconds, since, now, a + b)
  {
  }

  lemma ListedTypes(router: Router, counts: Counts, s: TaskState, types: map<string, int>)
    requires Lists(router, counts, s, types)
    ensures TypesAre(router, types, StateCount(counts, s))
  {
    forall t ensures t in types <==> Consumed(router, t) && StateCount(counts, s)(t) != 0 {
      assert t in types <==> Blocking(router, counts, TaskKey(t, s));
    }
  }

  lemma MergedTypes(router: Router, counts: Counts, a: map<string, int>, b: map<string, int>)
    requires Lists(router, counts, InProgress, a) && Lists(router, counts, Retrying, b)
    ensures TypesAre(router, MergeCounts(a, b), RunningCount(counts))
  {
    ListedTypes(router, counts, InProgress, a);
    ListedTypes(router, counts, Retrying, b);
  }

  /** A state has work exactly when some consumed type has a count there. */
  lemma HasWorkMeans(router: Router, counts: Counts, s: TaskState)
    ensures HasWork(router, counts, s) <==> exists t :: Consumed(router, t) && StateCount(counts, s)(t) != 0
  {
    if HasWork(router, counts, s) {
      var k :| k in counts && k.state == s && Blocking(router, counts, k);
      assert k == TaskKey(k.taskType, s);
      assert Consumed(router, k.taskType) && StateCount(counts, s)(k.taskType) != 0;
    }
    if t :| Consumed(router, t) && StateCount(counts, s)(t) != 0 {
      assert Blocking(router, counts, TaskKey(t, s)) && TaskKey(t, s) in counts;
    }
  }

  /** A retry is due exactly when some consumed type has one. */
  lemma DueWorkMeans(router: Router, retryDue: map<string, nat>)
    ensures DueWork(router, retryDue) <==> exists t :: Consumed(router, t) && DueCount(retryDue)(t) != 0
  {
    if DueWork(router, retryDue) {
      var t :| t in retryDue && retryDue[t] != 0 && !IsOrphan(router, t);
      assert Consumed(router, t) && DueCount(retryDue)(t) != 0;
    }
  }

  /** Only reasons of one kind, some exactly when `due`, each with an honest count. */
  ghost predicate OneKind(reasons: seq<Reason>, kind: Kind, due: bool) {
    && (reasons != [] <==> due)
    && (forall i :: 0 <= i < |reasons| ==> KindOf(reasons[i]) == kind && Honest(reasons[i]))
  }

  method ActivityReasons(f: Facts, idleSeconds: real, since: Option<real>, now: real) returns (reasons: seq<Reason>)
    ensures OneKind(reasons, Activity, !Idle(f, idleSeconds, now) || !QuietSince(f, since))
    ensures forall router :: AllAccurate(router, f, idleSeconds, since, now, reasons)
  {
    reasons := [];
    var last, started := f.lastActivity, f.startedAt;
    if last.Some? && (started.None? || last.value >= started.value) {
      if now - last.value < idleSeconds {
        reasons := [RecentActivity(now - last.value, idleSeconds, HumanActivity)];
      }
    } else if started.Some? {
      if now - started.value < idleSeconds {
        reasons := [RecentActivity(now - started.value, idleSeconds, ApiStart)];
      }
    } else {
      reasons := [ActivityUnknown];
    }
    if since.Some? && last.Some? && last.value >= since.value {
      reasons := reasons + [ActivitySince(since.value, last.value)];
    }
  }

  predicate Mentions(reasons: seq<Reason>, kind: Kind) {
    exists i :: 0 <= i < |reasons| && KindOf(reasons[i]) == kind
  }

  method RunningReason(router: Router, counts: Counts, sum: Summary) returns (reasons: seq<Reason>)
    requires Tallied(router, counts, sum)
    ensures OneKind(reasons, Running, HasWork(router, counts, InProgress) || HasWork(router, counts, Retrying))
    ensures forall i :: 0 <= i < |reasons| ==> TypesAre(router, Listed(reasons[i]), RunningCount(counts))
  {
    var count := At(sum.byState, InProgress) + At(sum.byState, Retrying);
    var types := MergeCounts(Bucket(sum.typesByState, InProgress), Bucket(sum.typesByState, Retrying));
    StateTotalMeansWork(router, counts, sum, InProgress);
    StateTotalMeansWork(router, counts, sum, Retrying);
    MergeTotal(Bucket(sum.typesByState, InProgress), Bucket(sum.typesByState, Retrying));
    MergedTypes(router, counts, Bucket(sum.typesByState, InProgress), Bucket(sum.typesByState, Retrying));
    reasons := if count != 0 then [TasksInProgress(count, types)] else [];
  }

  method OpenReason(router: Router, counts: Counts, sum: Summary) returns (reasons: seq<Reason>)
    requires Tallied(router, counts, sum)
    ensures OneKind(reasons, Unrouted, HasWork(router, counts, Open))
    ensures forall i :: 0 <= i < |reasons| ==> TypesAre(router, Listed(reasons[i]), StateCount(counts, Open))
  {
    ListedTypes(router, counts, Open, Bucket(sum.typesByState, Open));
    StateTotalMeansWork(router, counts, sum, Open);
    var count := At(sum.byState, Open);
    reasons := if count != 0 then [TasksOpen(count, Bucket(sum.typesByState, Open))] else [];
  }

  method PendingReason(router: Router, counts: Counts, sum: Summary) returns (reasons: seq<Reason>)
    requires Tallied(router, counts, sum)
    ensures OneKind(reasons, Queued, HasWork(router, counts, Pending))
    ensures forall i :: 0 <= i < |reasons| ==> TypesAre(router, Listed(reasons[i]), StateCount(counts, Pending))
  {
    ListedTypes(router, counts, Pending, Bucket(sum.typesByState, Pending));
    StateTotalMeansWork(router, counts, sum, Pending);
    var count := At(sum.byState, Pending);
    reasons := if count != 0 then [TasksPending(count, Bucket(sum.typesByState, Pending))] else [];
  }

  lemma DueIsListed(router: Router, retryDue: map<string, nat>)
    ensures DueTypes(router, retryDue) != map[] <==> DueWork(router, retryDue)
  {
    if DueWork(router, retryDue) {
      var t :| t in retryDue && retryDue[t] != 0 && !IsOrphan(router, t);
      assert t in DueTypes(router, retryDue);
    }
    if DueTypes(router, retryDue) != map[] {
      var t :| t in DueTypes(router, retryDue);
    }
  }

  method DueReason(router: Router, retryDue: map<string, nat>, sum: Summary) returns (reasons: seq<Reason>)
    requires sum.retryDueTypes == DueTypes(router, retryDue) && sum.retryDue == Total(DueTypes(router, retryDue))
    ensures OneKind(reasons, DueRetry, DueWork(router, retryDue))
    ensures forall i :: 0 <= i < |reasons| ==> TypesAre(router, Listed(reasons[i]), DueCount(retryDue))
  {
    PositiveTotal(sum.retryDueTypes);
    DueIsListed(router, retryDue);
    reasons := if sum.retryDue != 0 then [RetryDue(sum.retryDue, sum.retryDueTypes)] else [];
  }

  lemma BacklogIsQueued(router: Router, lengths: map<string, nat>)
    ensures Backlog(router, lengths) != map[] <==> QueuedWork(router, lengths)
  {
    if QueuedWork(router, lengths) {
      var q :| q in lengths && q in router.consumed && lengths[q] != 0;
      assert q in Backlog(router, lengths);
    }
    if Backlog(router, lengths) != map[] {
      var q :| q in Backlog(router, lengths);
    }
  }

  lemma MentionsConcat(a: seq<Reason>, b: seq<Reason>, kind: Kind)
    ensures Mentions(a + b, kind) <==> Mentions(a, kind) || Mentions(b, kind)
  {
    if i :| 0 <= i < |b| && KindOf(b[i]) == kind {
      assert (a + b)[|a| + i] == b[i];
    }
    if i :| 0 <= i < |a| && KindOf(a[i]) == kind {
      assert (a + b)[i] == a[i];
    }
  }

  lemma MentionsOwnKind(reasons: seq<Reason>, kind: Kind, due: bool)
    requires OneKind(reasons, kind, due)
    ensures forall k :: Mentions(reasons, k) <==> k == kind && due
  {
    if due {
      assert KindOf(reasons[0]) == kind;
    }
  }

  ghost predicate AllHonest(reasons: seq<Reason>) {
    forall i :: 0 <= i < |reasons| ==> Honest(reasons[i])
  }

  method BacklogReason(router: Router, lengths: map<string, nat>) returns (reasons: seq<Reason>)
    ensures OneKind(reasons, Backlogged, QueuedWork(router, lengths))
    ensures forall i :: 0 <= i < |reasons| ==>
              reasons[i].QueueNotEmpty? && forall q ::
                && (q in reasons[i].queues <==> q in router.consumed && q in lengths && lengths[q] != 0)
                && (q in reasons[i].queues ==> reasons[i].queues[q] == lengths[q])
  {
    BacklogIsQueued(router, lengths);
    var backlog := Backlog(router, lengths);
    reasons := if backlog != map[] then [QueueNotEmpty(backlog)] else [];
  }

  method SessionReasons(f: Facts) returns (migrating: seq<Reason>, copying: seq<Reason>)
    ensures OneKind(migrating, Migrating, f.migrationLock || f.migrateSessions != 0)
    ensures OneKind(copying, Copying, f.copySessions != 0)
    ensures forall i :: 0 <= i < |migrating| ==> migrating[i] == MigrationRunning(f.migrationLock, f.migrateSessions)
    ensures forall i :: 0 <= i < |copying| ==> copying[i] == CopyRunning(f.copySessions)
  {
    migrating := if f.migrationLock || f.migrateSessions != 0
        then [MigrationRunning(f.migrationLock, f.migrateSessions)] else [];
    copying := if f.copySessions != 0 then [CopyRunning(f.copySessions)] else [];
  }

  method HostReasons(hostReasons: seq<(string, Option<string>)>) returns (reasons: seq<Reason>)
    ensures |reasons| == |hostReasons|
    ensures forall i :: 0 <= i < |reasons| ==> reasons[i] == Host(hostReasons[i].0, hostReasons[i].1)
    ensures OneKind(reasons, HostFact, hostReasons != [])
  {
    reasons := [];
    for i := 0 to |hostReasons|
      invariant |reasons| == i
      invariant forall k :: 0 <= k < i ==> reasons[k] == Host(hostReasons[k].0, hostReasons[k].1)
    {
      reasons := reasons + [Host(hostReasons[i].0, hostReasons[i].1)];
    }
  }

  /** Whether the readings call for a reason of this kind. */
  predicate CalledFor(router: Router, f: Facts, idleSeconds: real, since: Option<real>,
                      hostReasons: seq<(string, Option<string>)>, now: real, kind: Kind)
  {
    match kind
    case Activity => !Idle(f, idleSeconds, now) || !QuietSince(f, since)
    case Running => HasWork(router, f.counts, InProgress) || HasWork(router, f.counts, Retrying)
    case Unrouted => HasWork(router, f.counts, Open)
    case Queued => HasWork(router, f.counts, Pending)
    case DueRetry => DueWork(router, f.retryDue)
    case Backlogged => QueuedWork(router, f.queueLengths)
    case Migrating => f.migrationLock || f.migrateSessions != 0
    case Copying => f.copySessions != 0
    case HostFact => hostReasons != []
    case Failure => false
  }

  /** The kinds of reason that a drain waits on, each there exactly when the readings hold such work. */
  ghost predicate NamesTheWork(router: Router, f: Facts, reasons: seq<Reason>) {
    && (Mentions(reasons, Running) <==> HasWork(router, f.counts, InProgress) || HasWork(router, f.counts, Retrying))
    && (Mentions(reasons, Unrouted) <==> HasWork(router, f.counts, Open))
    && (Mentions(reasons, Queued) <==> HasWork(router, f.counts, Pending))
    && (Mentions(reasons, Backlogged) <==> QueuedWork(router, f.queueLengths))
  }

  /** Four lists of one kind each, one after the other. */
  lemma FourKinds(a: seq<Reason>, b: seq<Reason>, c: seq<Reason>, d: seq<Reason>,
                  ka: Kind, kb: Kind, kc: Kind, kd: Kind, isA: bool, isB: bool, isC: bool, isD: bool)
    requires OneKind(a, ka, isA) && OneKind(b, kb, isB) && OneKind(c, kc, isC) && OneKind(d, kd, isD)
    ensures forall k :: Mentions(a + b + c + d, k) <==>
              (k == ka && isA) || (k == kb && isB) || (k == kc && isC) || (k == kd && isD)
    ensures AllHonest(a + b + c + d)
  {
    MentionsOwnKind(a, ka, isA);
    MentionsOwnKind(b, kb, isB);
    MentionsOwnKind(c, kc, isC);
    MentionsOwnKind(d, kd, isD);
    forall k ensures Mentions(a + b + c + d, k) <==>
        Mentions(a, k) || Mentions(b, k) || Mentions(c, k) || Mentions(d, k) {
      MentionsConcat(a, b, k);
      MentionsConcat(a + b, c, k);
      MentionsConcat(a + b + c, d, k);
    }
  }

  /** No reasons, no kinds. */
  lemma EmptyMentionsNone(reasons: seq<Reason>)
    ensures reasons == [] <==> forall k :: !Mentions(reasons, k)
  {
    if reasons != [] {
      assert Mentions(reasons, KindOf(reasons[0]));
    }
  }

  lemma AllMention(activity: seq<Reason>, tasks: seq<Reason>, system: seq<Reason>)
    requires AllHonest(activity) && AllHonest(tasks) && AllHonest(system)
    ensures forall k :: Mentions(activity + tasks + system, k) <==>
              Mentions(activity, k) || Mentions(tasks, k) || Mentions(system, k)
    ensures AllHonest(activity + tasks + system)
  {
    forall k ensures Mentions(activity + tasks + system, k) <==>
      Mentions(activity, k) || Mentions(tasks, k) || Mentions(system, k)
    {
      MentionsConcat(activity, tasks, k);
      MentionsConcat(activity + tasks, system, k);
    }
  }

  /** A stop is safe exactly when the readings call for no reason of any kind. */
  lemma SafeMeansNoneCalledFor(router: Router, f: Facts, idleSeconds: real, since: Option<real>,
                               hostReasons: seq<(string, Option<string>)>, now: real)
    ensures SafeToStop(router, f, idleSeconds, since, hostReasons, now) <==>
              forall k :: !CalledFor(router, f, idleSeconds, since, hostReasons, now, k)
  {
    if forall k :: !CalledFor(router, f, idleSeconds, since, hostReasons, now, k) {
      assert !CalledFor(router, f, idleSeconds, since, hostReasons, now, Activity);
      assert !CalledFor(router, f, idleSeconds, since, hostReasons, now, Running);
      assert !CalledFor(router, f, idleSeconds, since, hostReasons, now, Unrouted);
      assert !CalledFor(router, f, idleSeconds, since, hostReasons, now, Queued);
      assert !CalledFor(router, f, idleSeconds, since, hostReasons, now, DueRetry);
      assert !CalledFor(router, f, idleSeconds, since, hostReasons, now, Backlogged);
      assert !CalledFor(router, f, idleSeconds, since, hostReasons, now, Migrating);
      assert !CalledFor(router, f, idleSeconds, since, hostReasons, now, Copying);
      assert !CalledFor(router, f, idleSeconds, since, hostReasons, now, HostFact);
    }
  }

  method TaskReasons(router: Router, f: Facts) returns (reasons: seq<Reason>)
    ensures AllHonest(reasons)
    ensures forall idle, since, now :: AllAccurate(router, f, idle, since, now, reasons)
    ensures forall k :: Mentions(reasons, k) <==>
              || (k == Running && (HasWork(router, f.counts, InProgress) || HasWork(router, f.counts, Retrying)))
              || (k == Unrouted && HasWork(router, f.counts, Open))
              || (k == Queued && HasWork(router, f.counts, Pending))
              || (k == DueRetry && DueWork(router, f.retryDue))
  {
    var sum := SummarizeTasks(router, f.counts, f.retryDue);
    var running := RunningReason(router, f.counts, sum);
    var open := OpenReason(router, f.counts, sum);
    var pending := PendingReason(router, f.counts, sum);
    var due := DueReason(router, f.retryDue, sum);
    reasons := running + open + pending + due;
    forall idle, since, now ensures AllAccurate(router, f, idle, since, now, reasons) {
      AccurateConcat(router, f, idle, since, now, running, open);
      AccurateConcat(router, f, idle, since, now, running + open, pending);
      AccurateConcat(router, f, idle, since, now, running + open + pending, due);
    }
    FourKinds(running, open, pending, due, Running, Unrouted, Queued, DueRetry,
              HasWork(router, f.counts, InProgress) || HasWork(router, f.counts, Retrying),
              HasWork(router, f.counts, Open), HasWork(router, f.counts, Pending), DueWork(router, f.retryDue));
  }

  method SystemReasons(router: Router, f: Facts, hostReasons: seq<(string, Option<string>)>)
    returns (reasons: seq<Reason>)
    ensures AllHonest(reasons)
    ensures forall idle, since, now :: AllAccurate(router, f, idle, since, now, reasons)
    ensures forall k :: Mentions(reasons, k) <==>
              || (k == Backlogged && QueuedWork(router, f.queueLengths))
              || (k == Migrating && (f.migrationLock || f.migrateSessions != 0))
              || (k == Copying && f.copySessions != 0)
              || (k == HostFact && hostReasons != [])
  {
    var backlog := BacklogReason(router, f.queueLengths);
    var migrating, copying := SessionReasons(f);
    var host := HostReasons(hostReasons);
    reasons := backlog + migrating + copying + host;
    forall idle, since, now ensures AllAccurate(router, f, idle, since, now, reasons) {
      AccurateConcat(router, f, idle, since, now, backlog, migrating);
      AccurateConcat(router, f, idle, since, now, backlog + migrating, copying);
      AccurateConcat(router, f, idle, since, now, backlog + migrating + copying, host);
    }
    FourKinds(backlog, migrating, copying, host, Backlogged, Migrating, Copying, HostFact,
              QueuedWork(router, f.queueLengths), f.migrationLock || f.migrateSessions != 0, f.copySessions != 0,
              hostReasons != []);
  }

  /**
   * The verdict is the specification; a reason of each kind is given exactly when the readings call for it; and
   * every count reported is the sum of the types reported with it, which are exactly the ones read.
   */
  method Evaluate(router: Router, f: Facts, idleSeconds: real, since: Option<real>,
                  hostReasons: seq<(string, Option<string>)>, now: real)
    returns (eligible: bool, reasons: seq<Reason>)
    ensures eligible == (reasons == [])
    ensures eligible <==> SafeToStop(router, f, idleSeconds, since, hostReasons, now)
    ensures forall kind :: Mentions(reasons, kind) <==> CalledFor(router, f, idleSeconds, since, hostReasons, now, kind)
    ensures NamesTheWork(router, f, reasons) && AllHonest(reasons)
    ensures AllAccurate(router, f, idleSeconds, since, now, reasons)
  {
    var activity := ActivityReasons(f, idleSeconds, since, now);
    var tasks := TaskReasons(router, f);
    var system := SystemReasons(router, f, hostReasons);
    reasons := activity + tasks + system;
    eligible := reasons == [];
    MentionsOwnKind(activity, Activity, !Idle(f, idleSeconds, now) || !QuietSince(f, since));
    AllMention(activity, tasks, system);
    AccurateConcat(router, f, idleSeconds, since, now, activity, tasks);
    AccurateConcat(router, f, idleSeconds, since, now, activity + tasks, system);
    forall kind ensures Mentions(reasons, kind) <==> CalledFor(router, f, idleSeconds, since, hostReasons, now, kind) {
    }
    EmptyMentionsNone(reasons);
    SafeMeansNoneCalledFor(router, f, idleSeconds, since, hostReasons, now);
  }

  // ----- consequences -----

  /** Two readings that agree wherever a worker consumes. */
  ghost predicate SameConsumed(router: Router, f: Facts, g: Facts) {
    && f.(counts := g.counts, retryDue := g.retryDue, queueLengths := g.queueLengths) == g
    && (forall k :: Blocking(router, f.counts, k) <==> Blocking(router, g.counts, k))
    && (forall t :: !IsOrphan(router, t) ==>
        (t in f.retryDue && f.retryDue[t] != 0 <==> t in g.retryDue && g.retryDue[t] != 0))
    && (forall q :: q in router.consumed ==>
        (q in f.queueLengths && f.queueLengths[q] != 0 <==> q in g.queueLengths && g.queueLengths[q] != 0))
  }

  lemma DueAgrees(router: Router, a: map<string, nat>, b: map<string, nat>)
    requires forall t :: !IsOrphan(router, t) ==> (t in a && a[t] != 0 <==> t in b && b[t] != 0)
    ensures DueWork(router, a) <==> DueWork(router, b)
  {
    if t :| t in a && a[t] != 0 && !IsOrphan(router, t) {
      assert t in b && b[t] != 0;
    }
    if t :| t in b && b[t] != 0 && !IsOrphan(router, t) {
      assert t in a && a[t] != 0;
    }
  }

  lemma QueuesAgree(router: Router, a: map<string, nat>, b: map<string, nat>)
    requires forall q :: q in router.consumed ==> (q in a && a[q] != 0 <==> q in b && b[q] != 0)
    ensures QueuedWork(router, a) <==> QueuedWork(router, b)
  {
    if q :| q in a && q in router.consumed && a[q] != 0 {
      assert q in b && b[q] != 0;
    }
    if q :| q in b && q in router.consumed && b[q] != 0 {
      assert q in a && a[q] != 0;
    }
  }

  /** Orphan task types and orphan queues never affect the verdict. */
  lemma OrphansNeverMatter(router: Router, f: Facts, g: Facts, idleSeconds: real, since: Option<real>,
                           hostReasons: seq<(string, Option<string>)>, now: real)
    requires SameConsumed(router, f, g)
    ensures SafeToStop(router, f, idleSeconds, since, hostReasons, now) <==>
              SafeToStop(router, g, idleSeconds, since, hostReasons, now)
  {
    forall s: TaskState ensures HasWork(router, f.counts, s) <==> HasWork(router, g.counts, s) {
      if k :| k in f.counts && k.state == s && Blocking(router, f.counts, k) {
        assert Blocking(router, g.counts, k);
      }
      if k :| k in g.counts && k.state == s && Blocking(router, g.counts, k) {
        assert Blocking(router, f.counts, k);
      }
    }
    DueAgrees(router, f.retryDue, g.retryDue);
    QueuesAgree(router, f.queueLengths, g.queueLengths);
  }

  const CHECK_FAILED := "check_failed"

  function CodeOf(r: Reason): string {
    match r
    case ActivityUnknown => "activity_unknown"
    case RecentActivity(_, _, _) => "recent_human_activity"
    case ActivitySince(_, _) => "human_activity_since"
    case TasksInProgress(_, _) => "tasks_in_progress"
    case TasksOpen(_, _) => "tasks_open"
    case TasksPending(_, _) => "tasks_pending"
    case RetryDue(_, _) => "retry_due_within_horizon"
    case QueueNotEmpty(_) => "queue_not_empty"
    case MigrationRunning(_, _) => "migration_running"
    case CopyRunning(_) => "db_copy_running"
    case Host(code, _) => code
    case CheckFailed(_) => CHECK_FAILED
  }

  function ExitCode(eligible: bool, reasons: seq<Reason>): int {
    if exists r :: r in reasons && CodeOf(r) == CHECK_FAILED then 2 else if eligible then 0 else 1
  }

  /** Only a failed check or a host reason of that very name carries the failed-check code. */
  lemma OnlyFailuresAreFailures(r: Reason)
    ensures CodeOf(r) == CHECK_FAILED <==> r.CheckFailed? || (r.Host? && r.code == CHECK_FAILED)
  {
    assert |CHECK_FAILED| == 12;
    match r {
      case ActivityUnknown => assert CodeOf(r)[0] == 'a';
      case RecentActivity(_, _, _) => assert CodeOf(r)[0] == 'r';
      case ActivitySince(_, _) => assert CodeOf(r)[0] == 'h';
      case TasksInProgress(_, _) => assert CodeOf(r)[0] == 't';
      case TasksOpen(_, _) => assert CodeOf(r)[0] == 't';
      case TasksPending(_, _) => assert CodeOf(r)[0] == 't';
      case RetryDue(_, _) => assert CodeOf(r)[0] == 'r';
      case QueueNotEmpty(_) => assert CodeOf(r)[0] == 'q';
      case MigrationRunning(_, _) => assert CodeOf(r)[0] == 'm';
      case CopyRunning(_) => assert CodeOf(r)[0] == 'd';
      case Host(code, _) =>
      case CheckFailed(_) =>
    }
  }

  /**
   * The exit code is 0 exactly for an eligible verdict and 2 exactly when the check failed, which a host
   * reason named `check_failed` also claims.
   */
  lemma ExitCodeMeaning(eligible: bool, reasons: seq<Reason>)
    requires eligible == (reasons == [])
    ensures ExitCode(eligible, reasons) == 0 <==> eligible
    ensures ExitCode(eligible, reasons) == 2 <==>
              exists r :: r in reasons && (r.CheckFailed? || (r.Host? && r.code == CHECK_FAILED))
  {
    forall r | r in reasons ensures CodeOf(r) == CHECK_FAILED <==>
        r.CheckFailed? || (r.Host? && r.code == CHECK_FAILED) {
      OnlyFailuresAreFailures(r);
    }
  }

  /** `key >> 32` and `key`, each cut to 32 bits, as pg_locks shows a bigint advisory lock. */
  function LockHalves(key: int): (int, int) {
    ((key / 0x1_0000_0000) % 0x1_0000_0000, key % 0x1_0000_0000)
  }

  /** The first half is the high one: put together the halves are the key again, as an unsigned number. */
  lemma HalvesMeanTheKey(key: int)
    requires -0x8000_0000_0000_0000 <= key < 0x8000_0000_0000_0000
    ensures var (high, low) := LockHalves(key);
            && 0 <= high < 0x1_0000_0000 && 0 <= low < 0x1_0000_0000
            && high * 0x1_0000_0000 + low == if key >= 0 then key else key + 0x1_0000_0000_0000_0000
  {
    var x := key / 0x1_0000_0000;
    assert -0x8000_0000 <= x < 0x8000_0000;
    assert key == x * 0x1_0000_0000 + key % 0x1_0000_0000;
    assert x % 0x1_0000_0000 == if x >= 0 then x else x + 0x1_0000_0000;
  }

  /** Over 64-bit keys, negative ones included, the two halves identify the lock. */
  lemma HalvesIdentifyTheLock(a: int, b: int)
    requires -0x8000_0000_0000_0000 <= a < 0x8000_0000_0000_0000 && -0x8000_0000_0000_0000 <= b < 0x8000_0000_0000_0000
    ensures LockHalves(a) == LockHalves(b) <==> a == b
  {
    var x, y := a / 0x1_0000_0000, b / 0x1_0000_0000;
    assert -0x8000_0000 <= x < 0x8000_0000 && -0x8000_0000 <= y < 0x8000_0000;
    assert a == x * 0x1_0000_0000 + a % 0x1_0000_0000;
    assert b == y * 0x1_0000_0000 + b % 0x1_0000_0000;
    assert x % 0x1_0000_0000 == if x >= 0 then x else x + 0x1_0000_0000;
    assert y % 0x1_0000_0000 == if y >= 0 then y else y + 0x1_0000_0000;
  }
}
