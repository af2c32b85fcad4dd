/**
 * Revision 2645b4327b17: `ended_shift` leaves the native step-state enum and every row that carried
 * it is reclassified, with a journal that makes the rewrite reversible.
 */
module Collapse {
  import opened Relational

  datatype StepState =
    Pending | Working | Paused | EndedShift | Blocked | Completed | Skipped | Failed | Cancelled

  const MEMBERS_AFTER: set<StepState> := {Pending, Working, Paused, Blocked, Completed, Skipped, Failed, Cancelled}
  const MEMBERS_BEFORE: set<StepState> := MEMBERS_AFTER + {EndedShift}

  /** The stored `transition_reason` codes the revisions name; every other code is kept apart. */
  datatype Transition = ShiftEnded | OtherTaskPriority | OtherCode(code: string)

  /** A `step_state_records` row; `rest` stands for the columns no statement here names. */
  datatype StepRecord = StepRecord(state: StepState, transition: Option<Transition>, pauseReason: Option<Id>,
                                   rest: string)
  /** A `task_steps` row. */
  datatype TaskStep = TaskStep(state: StepState, rest: string)

  datatype Entry = Entry(previousState: StepState, previousTransition: Option<Transition>, rule: nat)
  /** `ended_shift_collapse_journal`, one part per `table_name`. */
  datatype Journal = Journal(records: map<Id, Entry>, steps: map<Id, Entry>)

  datatype Tables = Tables(
    members: set<StepState>,
    records: map<Id, StepRecord>,
    steps: map<Id, TaskStep>,
    journal: Option<Journal>)

  datatype Outcome =
    | NothingToDo
    | Refused
    | Mistyped            // the second self-check raised; the first one cannot
    | ConstraintViolated  // PostgreSQL rejected a row
    | Committed(ruleOne: nat, ruleTwo: nat, ruleThree: nat, steps: nat)
    | Reverted

  // ----- what the revision means, row by row -----

  predicate Unclassifiable(r: StepRecord) {
    r.state == EndedShift && r.transition.Some? && r.transition.value != ShiftEnded
  }

  /** Which of the three rules claims an `ended_shift` row. */
  function Rule(r: StepRecord): nat {
    if r.transition.Some? then 1 else if r.pauseReason.Some? then 2 else 3
  }

  /** The simultaneous case map: all three rules at once. */
  function Reclassify(r: StepRecord): StepRecord {
    if r.state != EndedShift then r
    else if Rule(r) == 3 then r.(state := Paused, transition := Some(ShiftEnded))
    else r.(state := Paused)
  }

  function PauseStep(s: TaskStep): TaskStep {
    if s.state == EndedShift then s.(state := Paused) else s
  }

  predicate Xor(r: StepRecord) {
    r.transition.None? || r.pauseReason.None?
  }

  /** The database respects its own column types and the check constraint of revision b4e7a1c93f28. */
  ghost predicate Legal(t: Tables) {
    && (forall id :: id in t.records ==> t.records[id].state in t.members && Xor(t.records[id]))
    && (forall id :: id in t.steps ==> t.steps[id].state in t.members)
  }

  predicate Refuses(t: Tables) {
    exists id :: id in t.records && Unclassifiable(t.records[id])
  }

  /** The record carries a transition reason, or is an `ended_shift` nobody explained, which rule 3 will type. */
  predicate EndsUpTyped(r: StepRecord) {
    r.transition.Some? || (r.state == EndedShift && r.pauseReason.None?)
  }

  /** A journal left by someone else lists, under rule 2, a record that is or will be typed. */
  predicate StaleJournal(t: Tables) {
    t.journal.Some?
    && exists id :: id in t.journal.value.records && t.journal.value.records[id].rule == 2
              && id in t.records && EndsUpTyped(t.records[id])
  }

  function RecordEntries(records: map<Id, StepRecord>): map<Id, Entry> {
    map id | id in records && records[id].state == EndedShift ::
      Entry(EndedShift, records[id].transition, Rule(records[id]))
  }

  function StepEntries(steps: map<Id, TaskStep>): map<Id, Entry> {
    map id | id in steps && steps[id].state == EndedShift :: Entry(EndedShift, None, 0)
  }

  function HeldJournal(t: Tables): Journal {
    if t.journal.Some? then t.journal.value else Journal(map[], map[])
  }

  function Collapsed(t: Tables): Tables {
    Tables(MEMBERS_AFTER,
           map id | id in t.records :: Reclassify(t.records[id]),
           map id | id in t.steps :: PauseStep(t.steps[id]),
           Some(Journal(RecordEntries(t.records) + HeldJournal(t).records,
                        StepEntries(t.steps) + HeldJournal(t).steps)))
  }

  function PutRecord(e: Entry, r: StepRecord): StepRecord {
    r.(state := e.previousState, transition := e.previousTransition)
  }

  function PutStep(e: Entry, s: TaskStep): TaskStep {
    s.(state := e.previousState)
  }

  function Restored(t: Tables): Tables
    requires t.journal.Some?
  {
    Tables(MEMBERS_BEFORE,
           Restore(t.records, t.journal.value.records, PutRecord),
           Restore(t.steps, t.journal.value.steps, PutStep),
           None)
  }

  /** Some journaled record got a catalog reference meanwhile, so its old transition reason no longer fits. */
  predicate RestoreClashes(t: Tables)
    requires t.journal.Some?
  {
    exists id :: id in t.records && !Xor(Restore(t.records, t.journal.value.records, PutRecord)[id])
  }

  // ----- the revision as the script runs it -----

  /** The WHERE clause that selects the rows of one rule. */
  predicate Claims(rule: nat, r: StepRecord) {
    && r.state == EndedShift
    && (rule == 1 ==> r.transition == Some(ShiftEnded))
    && (rule != 1 ==> r.transition.None?)
    && (rule == 2 ==> r.pauseReason.Some?)
    && (rule == 3 ==> r.pauseReason.None?)
  }

  function Selected(rule: nat, records: map<Id, StepRecord>): map<Id, Entry> {
    map id | id in records && Claims(rule, records[id]) :: Entry(records[id].state, records[id].transition, rule)
  }

  function UpdateRow(rule: nat, r: StepRecord): StepRecord {
    if !Claims(rule, r) then r
    else if rule == 3 then r.(state := Paused, transition := Some(ShiftEnded))
    else r.(state := Paused)
  }

  function Update(rule: nat, records: map<Id, StepRecord>): map<Id, StepRecord> {
    map id | id in records :: UpdateRow(rule, records[id])
  }

  /** The three statements, one after the other, are the case map: no row is rewritten twice. */
  lemma SequentialIsSimultaneous(records: map<Id, StepRecord>)
    requires forall id :: id in records ==> !Unclassifiable(records[id])
    ensures Update(3, Update(2, Update(1, records))) == map id | id in records :: Reclassify(records[id])
  {
    var a := Update(1, records);
    var b := Update(2, a);
    var c := Update(3, b);
    forall id | id in records ensures c[id] == Reclassify(records[id]) {
      assert a[id] == UpdateRow(1, records[id]);
      assert b[id] == UpdateRow(2, a[id]);
      assert c[id] == UpdateRow(3, b[id]);
    }
  }

  /** Every `ended_shift` record that is not refused is claimed by exactly one rule. */
  lemma OneRuleClaims(r: StepRecord)
    requires !Unclassifiable(r) && r.state == EndedShift
    ensures forall k: nat :: 1 <= k <= 3 ==> (Claims(k, r) <==> k == Rule(r))
    ensures 1 <= Rule(r) <= 3
  {
  }

  function Claimed(rule: nat, records: map<Id, StepRecord>): set<Id> {
    set id | id in records && Claims(rule, records[id])
  }

  function EndedShiftIds(records: map<Id, StepRecord>): set<Id> {
    set id | id in records && records[id].state == EndedShift
  }

  /** The three journal statements claim every `ended_shift` record that is not refused, each exactly once. */
  lemma RulesPartition(records: map<Id, StepRecord>)
    requires forall id :: id in records ==> !Unclassifiable(records[id])
    ensures |Claimed(1, records)| + |Claimed(2, records)| + |Claimed(3, records)| == |EndedShiftIds(records)|
  {
    var one, two, three := Claimed(1, records), Claimed(2, records), Claimed(3, records);
    forall id | id in records && records[id].state == EndedShift
      ensures id in one || id in two || id in three
    {
      OneRuleClaims(records[id]);
    }
    assert EndedShiftIds(records) == (one + two) + three;
    assert one * two == {} && (one + two) * three == {};
  }

  /** Rewriting the rows of one rule leaves the rows of the other rules where they were. */
  lemma ClaimsSurvive(records: map<Id, StepRecord>)
    ensures Claimed(2, Update(1, records)) == Claimed(2, records)
    ensures Claimed(3, Update(2, Update(1, records))) == Claimed(3, records)
  {
    forall id | id in records
      ensures Claims(2, Update(1, records)[id]) == Claims(2, records[id])
      ensures Claims(3, Update(2, Update(1, records))[id]) == Claims(3, records[id])
    {
      assert Update(1, records)[id] == UpdateRow(1, records[id]);
      assert Update(2, Update(1, records))[id] == UpdateRow(2, UpdateRow(1, records[id]));
    }
  }

  lemma SelectionsMeet(records: map<Id, StepRecord>)
    requires forall id :: id in records ==> !Unclassifiable(records[id])
    ensures Selected(3, records) + (Selected(2, records) + Selected(1, records)) == RecordEntries(records)
  {
    var written := Selected(3, records) + (Selected(2, records) + Selected(1, records));
    forall id | id in records && records[id].state == EndedShift
      ensures id in written && written[id] == RecordEntries(records)[id]
    {
      OneRuleClaims(records[id]);
    }
  }

  lemma LayersMerge(a: map<Id, Entry>, b: map<Id, Entry>, c: map<Id, Entry>, whole: map<Id, Entry>, held: map<Id,
                    Entry>)
    requires c + (b + a) == whole
    ensures c + (b + (a + held)) == whole + held
  {
    assert (c + (b + a)).Keys == c.Keys + b.Keys + a.Keys;
  }

  /** Together they write the entry of every such record, whatever the journal held before. */
  lemma JournalIsComplete(records: map<Id, StepRecord>, held: map<Id, Entry>)
    requires forall id :: id in records ==> !Unclassifiable(records[id])
    ensures Selected(3, records) + (Selected(2, records) + (Selected(1, records) + held)) ==
              RecordEntries(records) + held
  {
    SelectionsMeet(records);
    LayersMerge(Selected(1, records), Selected(2, records), Selected(3, records), RecordEntries(records), held);
  }

  /** First self-check: a row is still in the removed state. */
  predicate StillEnded(t: Tables) {
    || (exists id :: id in t.records && t.records[id].state == EndedShift)
    || (exists id :: id in t.steps && t.steps[id].state == EndedShift)
  }

  /** Second self-check: a record journaled as the worker's choice now carries a transition reason. */
  predicate MistypedRows(t: Tables)
    requires t.journal.Some?
  {
    exists id :: id in t.journal.value.records && t.journal.value.records[id].rule == 2
              && id in t.records && t.records[id].transition.Some?
  }

  /** The first self-check can never fire; the second fires exactly over a stale journal. */
  lemma SelfChecks(t: Tables)
    requires !Refuses(t)
    ensures !StillEnded(Collapsed(t))
    ensures MistypedRows(Collapsed(t)) <==> StaleJournal(t)
  {
    var after := Collapsed(t);
    forall id | id in t.records ensures after.records[id].transition.Some? <==> EndsUpTyped(t.records[id]) {
      assert after.records[id] == Reclassify(t.records[id]);
    }
    if StaleJournal(t) {
      var id :| id in t.journal.value.records && t.journal.value.records[id].rule == 2
             && id in t.records && EndsUpTyped(t.records[id]);
      assert after.journal.value.records[id] == t.journal.value.records[id];
    }
  }

  /** The second self-check does fire: over a journal that lists an unexplained `ended_shift` as the worker's choice. */
  lemma StaleJournalTripsTheCheck(id: Id, rest: string)
    ensures var t := Tables(MEMBERS_BEFORE, map[id := StepRecord(EndedShift, None, None, rest)], map[],
                            Some(Journal(map[id := Entry(EndedShift, None, 2)], map[])));
            Legal(t) && !Refuses(t) && MistypedRows(Collapsed(t))
  {
    var t := Tables(MEMBERS_BEFORE, map[id := StepRecord(EndedShift, None, None, rest)], map[],
                    Some(Journal(map[id := Entry(EndedShift, None, 2)], map[])));
    assert t.journal.value.records[id].rule == 2 && EndsUpTyped(t.records[id]);
    assert StaleJournal(t);
    SelfChecks(t);
  }

  class StepDatabase {
    var members: set<StepState>
    var records: map<Id, StepRecord>
    var steps: map<Id, TaskStep>
    var journal: Option<Journal>

    ghost function View(): Tables
      reads this
    {
      Tables(members, records, steps, journal)
    }

    /** One transaction per migration: a raise undoes every statement before it. */
    method Rollback(saved: Tables)
      modifies this
      ensures View() == saved
    {
      members, records, steps, journal := saved.members, saved.records, saved.steps, saved.journal;
    }

    /** The four journaling statements; ON CONFLICT DO NOTHING keeps an entry that is already there. */
    method WriteJournal()
      requires !Refuses(View())
      modifies this`journal
      ensures journal == Collapsed(old(View())).journal
    {
      var held := if journal.Some? then journal.value else Journal(map[], map[]);
      var entries := Selected(1, records) + held.records;
      entries := Selected(2, records) + entries;
      entries := Selected(3, records) + entries;
      JournalIsComplete(records, held.records);
      journal := Some(Journal(entries, StepEntries(steps) + held.steps));
    }

    /** The four UPDATE statements, in order, with their row counts. */
    method Rewrite() returns (one: nat, two: nat, three: nat, stepCount: nat)
      requires !Refuses(View())
      modifies this`records, this`steps
      ensures records == Collapsed(old(View())).records && steps == Collapsed(old(View())).steps
      ensures one + two + three == |EndedShiftIds(old(records))|
      ensures stepCount == |StepEntries(old(steps)).Keys|
    {
      SequentialIsSimultaneous(records);
      RulesPartition(records);
      ClaimsSurvive(records);
      one := |Claimed(1, records)|;
      records := Update(1, records);
      two := |Claimed(2, records)|;
      records := Update(2, records);
      three := |Claimed(3, records)|;
      records := Update(3, records);
      stepCount := |StepEntries(steps).Keys|;
      steps := map id | id in steps :: PauseStep(steps[id]);
    }

    /** Both self-checks are in the code; only the second can ever raise, and only over a stale journal. */
    method Upgrade() returns (outcome: Outcome)
      modifies this
      ensures EndedShift !in old(members) ==> outcome == NothingToDo
      ensures EndedShift in old(members) && Refuses(old(View())) ==> outcome == Refused
      ensures EndedShift in old(members) && !Refuses(old(View())) && StaleJournal(old(View())) ==> outcome == Mistyped
      ensures EndedShift in old(members) && !Refuses(old(View())) && !StaleJournal(old(View())) ==>
                && outcome.Committed?
                && outcome.ruleOne + outcome.ruleTwo + outcome.ruleThree == |EndedShiftIds(old(records))|
                && outcome.steps == |StepEntries(old(steps)).Keys|
      ensures View() == if outcome.Committed? then Collapsed(old(View())) else old(View())
    {
      if EndedShift !in members {
        return NothingToDo;
      }
      if Refuses(Tables(members, records, steps, journal)) {
        return Refused;
      }
      var saved := Tables(members, records, steps, journal);
      WriteJournal();
      var one, two, three, stepCount := Rewrite();
      SelfChecks(saved);
      var now := Tables(MEMBERS_AFTER, records, steps, journal);
      assert now == Collapsed(saved);
      if StillEnded(now) {
        assert false;
      }
      if MistypedRows(now) {
        Rollback(saved);
        return Mistyped;
      }
      members := MEMBERS_AFTER;
      outcome := Committed(one, two, three, stepCount);
    }

    method Downgrade() returns (outcome: Outcome)
      modifies this
      ensures EndedShift in old(members) ==> outcome == NothingToDo
      ensures EndedShift !in old(members) && old(journal).None? ==> outcome == Refused
      ensures EndedShift !in old(members) && old(journal).Some? ==>
                outcome == if RestoreClashes(old(View())) then ConstraintViolated else Reverted
      ensures View() == if outcome == Reverted then Restored(old(View())) else old(View())
    {
      if EndedShift in members {
        return NothingToDo;
      }
      if journal.None? {
        return Refused;
      }
      var saved := Tables(members, records, steps, journal);
      members := MEMBERS_BEFORE;
      records := Restore(records, journal.value.records, PutRecord);
      if exists id :: id in records && !Xor(records[id]) {
        Rollback(saved);
        return ConstraintViolated;
      }
      steps := Restore(steps, journal.value.steps, PutStep);
      journal := None;
      outcome := Reverted;
    }
  }

  // ----- whole runs -----

  /** Application traffic between the upgrade and the downgrade. */
  function Later(t: Tables, recordWrites: seq<Write<StepRecord>>, stepWrites: seq<Write<TaskStep>>): Tables {
    t.(records := Run(recordWrites, t.records), steps := Run(stepWrites, t.steps))
  }

  /**
   * The upgrade keeps the database legal: the narrower enum holds every row and the check constraint survives
   * rule 3.
   */
  lemma CollapseKeepsLegal(t: Tables)
    requires Legal(t) && !Refuses(t)
    ensures Legal(Collapsed(t))
  {
    var after := Collapsed(t);
    forall id | id in after.records
      ensures after.records[id].state in after.members && Xor(after.records[id])
    {
      assert after.records[id] == Reclassify(t.records[id]);
    }
  }

  /**
   * What becomes of each record, told from its old columns: `ended_shift` becomes `paused` and no other state
   * moves; a transition reason stays what it was, an `ended_shift` nobody explained gets `shift_ended`, and no
   * other record gets one; nothing else in any record moves, and none appears or goes.
   */
  lemma CollapsedRecord(t: Tables, id: Id)
    requires !Refuses(t)
    ensures Collapsed(t).records.Keys == t.records.Keys
    ensures id in t.records ==>
              var was, is' := t.records[id], Collapsed(t).records[id];
              && is'.state == (if was.state == EndedShift then Paused else was.state)
              && (was.transition.Some? ==> is'.transition == was.transition)
              && (was.transition.None? && was.state == EndedShift && was.pauseReason.None? ==>
                    is'.transition == Some(ShiftEnded))
              && (was.transition.None? && (was.state != EndedShift || was.pauseReason.Some?) ==> is'.transition.None?)
              && is'.pauseReason == was.pauseReason && is'.rest == was.rest
  {
  }

  /** What becomes of each step. */
  lemma CollapsedStep(t: Tables, id: Id)
    ensures Collapsed(t).steps.Keys == t.steps.Keys
    ensures id in t.steps ==>
              && Collapsed(t).steps[id].state == (if t.steps[id].state == EndedShift then Paused else t.steps[id].state)
              && Collapsed(t).steps[id].rest == t.steps[id].rest
  {
  }

  lemma CollapseJournaled(t: Tables)
    requires t.journal.None?
    ensures Collapsed(t).journal == Some(Journal(RecordEntries(t.records), StepEntries(t.steps)))
    ensures Records(t.records, Collapsed(t).records, RecordEntries(t.records), PutRecord)
    ensures Records(t.steps, Collapsed(t).steps, StepEntries(t.steps), PutStep)
  {
    assert RecordEntries(t.records) + map[] == RecordEntries(t.records);
    assert StepEntries(t.steps) + map[] == StepEntries(t.steps);
  }

  /** What the journal says of each rewritten row, and that it lists no other when it starts out empty. */
  lemma JournalTells(t: Tables, id: Id)
    requires t.journal.None? && !Refuses(t)
    ensures var j := Collapsed(t).journal;
            && j.Some?
            && (id in j.value.records <==> id in t.records && t.records[id].state == EndedShift)
            && (id in j.value.steps <==> id in t.steps && t.steps[id].state == EndedShift)
            && (id in j.value.steps ==> j.value.steps[id] == Entry(EndedShift, None, 0))
            && (id in j.value.records ==>
                  && j.value.records[id].previousState == EndedShift
                  && j.value.records[id].previousTransition == t.records[id].transition
                  && j.value.records[id].rule == if t.records[id].transition == Some(ShiftEnded) then 1
                                                 else if t.records[id].pauseReason.Some? then 2 else 3)
  {
    CollapseJournaled(t);
  }

  /** Refused is exactly an `ended_shift` record typed as some other transition. */
  lemma RefusedMeans(t: Tables)
    ensures Refuses(t) <==>
              exists id :: && id in t.records && t.records[id].state == EndedShift && t.records[id].transition.Some?
                           && (t.records[id].transition.value.OtherTaskPriority?
                               || t.records[id].transition.value.OtherCode?)
  {
    if id :| id in t.records && Unclassifiable(t.records[id]) {
      assert t.records[id].transition.value.OtherTaskPriority? || t.records[id].transition.value.OtherCode?;
    }
    if id :| && id in t.records && t.records[id].state == EndedShift && t.records[id].transition.Some?
             && (t.records[id].transition.value.OtherTaskPriority? || t.records[id].transition.value.OtherCode?) {
      assert Unclassifiable(t.records[id]);
    }
  }

  /** After the upgrade the state is gone and every other one is there; after the downgrade all are. */
  lemma MembersMove(t: Tables)
    ensures forall s :: s in Collapsed(t).members <==> s != EndedShift
    ensures t.journal.Some? ==> forall s :: s in Restored(t).members
  {
    forall s ensures s in MEMBERS_BEFORE {
      match s {
        case Pending =>
        case Working =>
        case Paused =>
        case EndedShift =>
        case Blocked =>
        case Completed =>
        case Skipped =>
        case Failed =>
        case Cancelled =>
      }
    }
  }

  /** A record explained by a worker's pick keeps that pick and never gains a transition reason. */
  lemma WorkerChoiceKept(t: Tables, id: Id)
    requires Legal(t) && !Refuses(t) && id in t.records && t.records[id].pauseReason.Some?
    ensures Collapsed(t).records[id].pauseReason == t.records[id].pauseReason
    ensures Collapsed(t).records[id].transition.None?
  {
    assert Collapsed(t).records[id] == Reclassify(t.records[id]);
  }

  /**
   * Exact reversibility over any run: upgrade, then any writes that leave the journaled rows alone,
   * then downgrade, is the same as those writes on the database that was never migrated.
   */
  lemma CollapseIsReversible(t: Tables, recordWrites: seq<Write<StepRecord>>, stepWrites: seq<Write<TaskStep>>)
    requires t.members == MEMBERS_BEFORE && t.journal.None? && !Refuses(t)
    requires Avoids(recordWrites, RecordEntries(t.records).Keys)
    requires Avoids(stepWrites, StepEntries(t.steps).Keys)
    ensures Restored(Later(Collapsed(t), recordWrites, stepWrites)) == Later(t, recordWrites, stepWrites)
  {
    CollapseJournaled(t);
    UndoCommutes(recordWrites, t.records, Collapsed(t).records, RecordEntries(t.records), PutRecord);
    UndoCommutes(stepWrites, t.steps, Collapsed(t).steps, StepEntries(t.steps), PutStep);
  }

  /** Every journaled record that is still there is an `ended_shift` with its old transition reason. */
  predicate RecordsAsBefore(now: map<Id, StepRecord>, before: map<Id, StepRecord>) {
    forall id :: id in now && id in before && before[id].state == EndedShift ==>
      now[id].state == EndedShift && now[id].transition == before[id].transition
  }

  /** Every journaled step that is still there is an `ended_shift`. */
  predicate StepsAsBefore(now: map<Id, TaskStep>, before: map<Id, TaskStep>) {
    forall id :: id in now && id in before && before[id].state == EndedShift ==> now[id].state == EndedShift
  }

  lemma RecordsAgree(now: map<Id, StepRecord>, before: map<Id, StepRecord>)
    ensures Agrees(now, RecordEntries(before), PutRecord) <==> RecordsAsBefore(now, before)
  {
  }

  lemma StepsAgree(now: map<Id, TaskStep>, before: map<Id, TaskStep>)
    ensures Agrees(now, StepEntries(before), PutStep) <==> StepsAsBefore(now, before)
  {
  }

  /**
   * And over any traffic at all: the downgrade undoes the upgrade if and only if the writes left every
   * journaled row they kept in the state, and every journaled record with the transition reason, that it had
   * before. Otherwise it forces those back over what the application wrote.
   */
  lemma CollapseRestoresExactly(t: Tables, recordWrites: seq<Write<StepRecord>>, stepWrites: seq<Write<TaskStep>>)
    requires t.members == MEMBERS_BEFORE && t.journal.None? && !Refuses(t)
    ensures var later := Later(t, recordWrites, stepWrites);
            Restored(Later(Collapsed(t), recordWrites, stepWrites)) == later <==>
              RecordsAsBefore(later.records, t.records) && StepsAsBefore(later.steps, t.steps)
  {
    CollapseJournaled(t);
    UndoExactly(recordWrites, t.records, Collapsed(t).records, RecordEntries(t.records), PutRecord);
    UndoExactly(stepWrites, t.steps, Collapsed(t).steps, StepEntries(t.steps), PutStep);
    RecordsAgree(Run(recordWrites, t.records), t.records);
    StepsAgree(Run(stepWrites, t.steps), t.steps);
  }

  /** So a journaled step that was resumed meanwhile is forced back to `ended_shift`. */
  lemma ResumedStepIsForcedBack(id: Id, earlier: string, now: string)
    ensures var t := Tables(MEMBERS_BEFORE, map[], map[id := TaskStep(EndedShift, earlier)], None);
            var resumed := Later(Collapsed(t), [], [Put(id, TaskStep(Working, now))]);
            Restored(resumed).steps == map[id := TaskStep(EndedShift, now)]
  {
    var t := Tables(MEMBERS_BEFORE, map[], map[id := TaskStep(EndedShift, earlier)], None);
    var w: Write<TaskStep> := Put(id, TaskStep(Working, now));
    CollapseJournaled(t);
    RunOne(w, Collapsed(t).steps);
    var resumed := Later(Collapsed(t), [], [w]);
    assert resumed.steps == map[id := TaskStep(Working, now)];
    assert StepEntries(t.steps)[id].previousState == EndedShift;
  }

  /** In such a run the downgrade is accepted whenever the writes themselves respect the check constraint. */
  lemma ReversalIsAccepted(t: Tables, recordWrites: seq<Write<StepRecord>>)
    requires t.members == MEMBERS_BEFORE && t.journal.None? && !Refuses(t)
    requires Avoids(recordWrites, RecordEntries(t.records).Keys)
    ensures RestoreClashes(Later(Collapsed(t), recordWrites, []))
       <==> exists id :: id in Run(recordWrites, t.records) && !Xor(Run(recordWrites, t.records)[id])
  {
    CollapseIsReversible(t, recordWrites, []);
    var later := Later(Collapsed(t), recordWrites, []);
    assert Restore(later.records, later.journal.value.records, PutRecord) == Run(recordWrites, t.records);
    assert later.records.Keys == Run(recordWrites, t.records).Keys;
  }

  /**
   * Whatever the application did, a step outside the journal comes through untouched, and the others get
   * their state back.
   */
  lemma DowngradeTouchesOnlyJournaledSteps(t: Tables, id: Id)
    requires t.journal.Some? && id in t.steps
    ensures id !in t.journal.value.steps ==> Restored(t).steps[id] == t.steps[id]
    ensures id in t.journal.value.steps ==>
              && Restored(t).steps[id].state == t.journal.value.steps[id].previousState
              && Restored(t).steps[id].rest == t.steps[id].rest
  {
  }

  /** Whatever the application did, a row outside the journal comes through the downgrade untouched. */
  lemma DowngradeTouchesOnlyJournaled(t: Tables, id: Id)
    requires t.journal.Some? && id in t.records
    ensures id !in t.journal.value.records ==> Restored(t).records[id] == t.records[id]
    ensures id in t.journal.value.records ==>
              && Restored(t).records[id].pauseReason == t.records[id].pauseReason
              && Restored(t).records[id].state == t.journal.value.records[id].previousState
              && Restored(t).records[id].transition == t.journal.value.records[id].previousTransition
  {
  }

  /**
   * Why the journal must exist: no function of the rewritten rows alone, however clever, restores
   * every database, because a clock-out written after the cutover is identical to a rewritten one.
   */
  lemma RowsAloneCannotRestore(restore: map<Id, StepRecord> -> map<Id, StepRecord>)
    ensures exists t: Tables :: Legal(t) && !Refuses(t) && restore(Collapsed(t).records) != t.records
  {
    var rewritten := Tables(MEMBERS_BEFORE, map["r" := StepRecord(EndedShift, None, None, "")], map[], None);
    var organic := Tables(MEMBERS_BEFORE, map["r" := StepRecord(Paused, Some(ShiftEnded), None, "")], map[], None);
    assert rewritten.records["r"] != organic.records["r"];
    assert Collapsed(rewritten).records == Collapsed(organic).records;
    assert Legal(rewritten) && !Refuses(rewritten) && Legal(organic) && !Refuses(organic);
  }
}
