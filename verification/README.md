# Data migrations, stop protocol and backfills

This project models the parts of the workshop manager that change data in bulk or decide whether production
may stop, and proves what each of them promises. Tables are maps from primary key to row, an SQL statement is a
function on such a map, a script is a method of the class that holds the tables it mutates, and a migration is
one transaction that commits or leaves everything as it was. Application writes between an upgrade and a
downgrade are arbitrary finite sequences. Times are integer ticks; the thresholds of the stop check are reals.

| file | subject |
|---|---|
| `Relational.dfy` | tables, application writes, the undo law of a journal |
| `Collapse.dfy` | `ended_shift` leaves the step-state enum, with a journal |
| `PauseReasons.dfy` | seeding, backfill, enum drop, retyping and retirement of pause reasons, the loss of the retype journal; what a record means along the whole chain |
| `Valuations.dfy` | item money moves to valuations, its columns are dropped, and both are undone |
| `Drafts.dfy` | stock-report versions become draftable |
| `Payloads.dfy` | unfinished product-sync payloads become canonical |
| `Sums.dfy` | sums over sets, maps and groups |
| `Eligibility.dfy`, `Drain.dfy` | may production stop; wait until the work is gone |
| `MigrateJobs.dfy` | concurrent migration jobs with different code versions around one lock |
| `Timeline.dfy` | the linear sweep, against what the records say at each instant |
| `ShiftBackfill.dfy` | rebuilt shifts, delete-and-rewrite runs, day selection |
| `Rollups.dfy` | completion counters and summed time tables |
| `Cleanup.dfy` | duplicate upholstery rows |

Main results, hardest first:

- `Timeline.SegmentsMeaning` and `ShiftBackfill.RebuiltShiftMeaning`: the sweep, the merge and the rebuilt shift
  agree with a pointwise definition of the worker's state, and durations are conserved;
  `ShiftBackfill.RebuiltDayIsTrue` tells the whole rebuilt day from the columns of the step records.
- `ShiftBackfill.ScriptIsIdempotent`: running the script again changes nothing if and only if no selected
  worker-day is on shift right up to a midnight whose day is not selected; `MidnightExitRepeatsMarker` is a
  concrete one. `ShiftBackfill.BackfillKeepsShifts`: a rewritten day's rebuilt shift is in the table afterwards
  if and only if the next day's rewrite did not take its end marker; `OvernightLosesMarker` is a concrete loss.
- `PauseReasons.MeaningIsPreserved`: a record's explanation survives five revisions with traffic in between;
  `PauseReasons.ChainRefusesExactly` says when the chain refuses, `PauseReasons.SomeRecordTravels` that records of
  every state and legacy reason reach its last step.
- `PauseReasons.SeedingOpensTheGate`: exactly when seeding alone lets the chain go on.
- `Collapse.CollapseIsReversible`, `PauseReasons.RetypeIsReversible`, `Valuations.MoneyComesBack`: journaled
  migrations undo exactly, amid later rows of the same shape; `Relational.UndoExactly`,
  `Collapse.CollapseRestoresExactly` and `PauseReasons.RetypeRestoresExactly` say for which traffic at all;
  `Collapse.ReversalIsAccepted`, `PauseReasons.RetypeReversalIsAccepted` and
  `Valuations.DropReversalIsAccepted` say exactly when the undoing
  downgrade is accepted; `Collapse.RowsAloneCannotRestore`, `PauseReasons.RetypedRowsAloneCannotRestore` and
  `Valuations.DropAloneIsLossy` show that the journals are needed.
- `MigrateJobs.AlwaysInv` and the theorems over every interleaving built on it.
- `Eligibility.Evaluate`: the verdict is a quantified specification; `Drain.DrainLoop` is bounded and agrees with it.
- `Cleanup.SecondRunArchivesNothing`, `Cleanup.PointingOwnersSurvive` and `Cleanup.TwoOwnersLoseOne`,
  `Rollups.CompletedRollupsAgree`, `Drafts.NarrowedIsOldLegal`, `Payloads.StatementsAreCanonical`.

Where the code and its documentation differ, the model follows the code:

- The shift backfill says that reruns are idempotent. A shift that ends exactly on midnight gets its end marker
  on the next day, outside the half-open delete range. A run that does not rewrite that next day adds one more
  marker each time; a run that does rewrite it deletes the marker and leaves the first day's shift without an
  end, as for every shift worked over a midnight inside the range.
- The pause-reason seed says that upgrading alone is self-sufficient. It is not without a workspace, nor when a
  soft-deleted row holds a default slug, nor when a missing default's id or name is taken
  (`PauseReasons.SeedingOpensTheGate`, with an input for each).
- The revision that drops the retype journal says that which rows to restore is derivable without it. It is not
  (`PauseReasons.RetypedRowsAloneCannotRestore`).
- The cleanup says that it does not delete the owner of an unfinished requirement. It looks at the requirement a
  row points at, not at the ones it owns (`Cleanup.UnpointedOwnerIsArchived`; `Cleanup.OwnersSurvive` says
  exactly when no owner is lost).
- The collapse says that its row counts are asserted to partition the population. The code only prints them;
  `Collapse.RulesPartition` proves that they do.
- The money column drop logs that it drops the journal. It does not, and its downgrade depends on that.
- The draft downgrade says that no draft exists once its guard has passed. The guard looks at versions only;
  a draft snapshot under an active version passes it and fails later (`Drafts.GuardAloneIsNotEnough`).
- The collapse and the money migration say that their self-checks guard the data. From a fresh journal none of
  them can fire; over a journal left behind by someone else some do, and `Collapse.SelfChecks` and
  `Valuations.PostconditionsAreExact` say exactly when.

## Model

| member | source | states |
|---|---|---|
| `Relational.UndoCommutes` | app/migrations/versions/2645b4327b17_collapse_ended_shift_step_state.py:315-337 | Undo law of a journal: after any writes that avoid the journaled ids, restoring from the journal gives the table the same writes would have given without the rewrite |
| `Relational.UndoExactly` | app/migrations/versions/2645b4327b17_collapse_ended_shift_step_state.py:315-337 | The same for any writes: restoring puts every journaled row back on top of what those writes would have given, so it gives exactly that if and only if they left each journaled row they kept saying what its entry says |
| `Collapse.SequentialIsSimultaneous` | app/migrations/versions/2645b4327b17_collapse_ended_shift_step_state.py:203-242 | The three UPDATEs run in order equal one simultaneous case map over every record |
| `Collapse.RulesPartition` | app/migrations/versions/2645b4327b17_collapse_ended_shift_step_state.py:203-256 | The three row counts add up to the number of `ended_shift` records |
| `Collapse.JournalIsComplete` | app/migrations/versions/2645b4327b17_collapse_ended_shift_step_state.py:171-188 | The three conflict-ignoring inserts add exactly one entry per `ended_shift` record not journaled before, and keep the entries already there |
| `Collapse.SelfChecks` | app/migrations/versions/2645b4327b17_collapse_ended_shift_step_state.py:258-288 | The "still in the removed state" check can never fire; the "mistyped" check fires exactly when a journal left behind lists, under rule 2, a record that carries a transition reason or is an unexplained `ended_shift` |
| `Collapse.StaleJournalTripsTheCheck` | app/migrations/versions/2645b4327b17_collapse_ended_shift_step_state.py:269-288 | A concrete journal over which the second self-check fires |
| `Collapse.StepDatabase.Rollback` | app/migrations/env.py:158-180 | One transaction per migration: a raise restores the whole database |
| `Collapse.StepDatabase.WriteJournal` | app/migrations/versions/2645b4327b17_collapse_ended_shift_step_state.py:154-201 | The journaling statements leave the journal of the case map |
| `Collapse.StepDatabase.Rewrite` | app/migrations/versions/2645b4327b17_collapse_ended_shift_step_state.py:203-250 | The UPDATE statements leave the rows of the case map, with row counts that partition the population |
| `Collapse.StepDatabase.Upgrade` | app/migrations/versions/2645b4327b17_collapse_ended_shift_step_state.py:126-290 | Exactly when the upgrade does nothing, refuses, trips a self-check or commits, and the whole resulting database in each case |
| `Collapse.StepDatabase.Downgrade` | app/migrations/versions/2645b4327b17_collapse_ended_shift_step_state.py:293-343 | Exactly when the downgrade does nothing, refuses, violates the check constraint or reverts, and the whole resulting database |
| `Collapse.CollapseKeepsLegal` | app/migrations/versions/b4e7a1c93f28_retire_system_pause_reason_machinery.py:110-115 | The upgrade keeps the transition/catalog check constraint and every state inside the narrower enum |
| `Collapse.WorkerChoiceKept` | app/migrations/versions/2645b4327b17_collapse_ended_shift_step_state.py:214-226 | A record with a catalog reference keeps it and gains no transition reason |
| `Collapse.CollapsedRecord` | app/migrations/versions/2645b4327b17_collapse_ended_shift_step_state.py:203-242 | What becomes of each record, told from its old columns: `ended_shift` becomes `paused`; a transition reason stays what it was; an `ended_shift` nobody explained gets `shift_ended` and no other record gets one; the catalog reference and everything else stay |
| `Collapse.CollapsedStep` | app/migrations/versions/2645b4327b17_collapse_ended_shift_step_state.py:244-250 | What becomes of each step |
| `Collapse.JournalTells` | app/migrations/versions/2645b4327b17_collapse_ended_shift_step_state.py:171-201 | Which rows the journal lists and what it says of each: old state, old transition reason and the rule that claimed it |
| `Collapse.RefusedMeans` | app/migrations/versions/2645b4327b17_collapse_ended_shift_step_state.py:133-152 | The upgrade refuses exactly over an `ended_shift` record typed as another transition than `shift_ended` |
| `Collapse.MembersMove` | app/migrations/versions/2645b4327b17_collapse_ended_shift_step_state.py:82-89 | The upgraded type has every state but `ended_shift`, the downgraded one has all |
| `Collapse.CollapseIsReversible` | app/migrations/versions/2645b4327b17_collapse_ended_shift_step_state.py:171-201 | Upgrade, any writes that leave the journaled rows alone, downgrade: equals those writes on the database that was never migrated |
| `Collapse.CollapseRestoresExactly` | app/migrations/versions/2645b4327b17_collapse_ended_shift_step_state.py:315-337 | Over any traffic: it equals them if and only if every journaled row still there is an `ended_shift` again, each record with its old transition reason |
| `Collapse.ResumedStepIsForcedBack` | app/migrations/versions/2645b4327b17_collapse_ended_shift_step_state.py:327-337 | A journaled step resumed to `working` is forced back to `ended_shift` |
| `Collapse.ReversalIsAccepted` | app/migrations/versions/2645b4327b17_collapse_ended_shift_step_state.py:315-326 | In such a run the restore violates the check constraint exactly when the application's own writes would |
| `Collapse.DowngradeTouchesOnlyJournaled` | app/migrations/versions/2645b4327b17_collapse_ended_shift_step_state.py:315-326 | After arbitrary traffic, a journaled record gets its old state and transition reason and no other record changes |
| `Collapse.DowngradeTouchesOnlyJournaledSteps` | app/migrations/versions/2645b4327b17_collapse_ended_shift_step_state.py:327-337 | A journaled step gets its old state and no other step changes |
| `Collapse.RowsAloneCannotRestore` | app/migrations/versions/2645b4327b17_collapse_ended_shift_step_state.py:300-310 | No function of the rewritten rows alone restores every database, so the journal is necessary |
| `PauseReasons.GateMeansAllLive` | app/migrations/versions/fb10ac7fd439_add_pause_reason_id_to_step_state_.py:57-67 | The count gate passes exactly when each of the six slugs is held by a live row |
| `PauseReasons.SeedingGoesThrough` | app/migrations/versions/49bd666da846_seed_default_pause_reasons.py:78-91 | For any list of distinct seeds: no insert is rejected if and only if no slug nobody holds has its seed id or its name in the workspace taken, in the catalog as it was before the first insert |
| `PauseReasons.BlockedMeans` | app/migrations/versions/49bd666da846_seed_default_pause_reasons.py:54-69 | A default is blocked when nobody has its slug and its id, or its name in that workspace, is taken |
| `PauseReasons.SeedingOpensTheGate` | app/migrations/versions/49bd666da846_seed_default_pause_reasons.py:72-91 | For every consistent database: after the seed revision the next revision's gate passes if and only if there is a workspace, no default slug is held by a soft-deleted row, and no missing default has its id or its name taken |
| `PauseReasons.RetiredDefaultKeepsGateShut` | app/migrations/versions/49bd666da846_seed_default_pause_reasons.py:67-67 | Any catalog of one soft-deleted default: the seed skips it and the gate stays shut |
| `PauseReasons.TakenNameRejectsTheSeed` | app/migrations/versions/ad5da5b32355_create_pause_reasons_table.py:52-52 | Any catalog of one row without a slug under a default's name: the seed is rejected |
| `PauseReasons.NoWorkspaceKeepsGateShut` | app/migrations/versions/49bd666da846_seed_default_pause_reasons.py:74-76 | Without a workspace the seed does nothing and the gate stays shut |
| `PauseReasons.UnmappedIsUnreachable` | app/migrations/versions/fb10ac7fd439_add_pause_reason_id_to_step_state_.py:92-110 | Behind the gate the unmapped check can never fire |
| `PauseReasons.OtherSlugsUntouched` | app/migrations/versions/97b60e06d42a_backfill_other_task_priority_transition_.py:152-177 | Retyping changes no other slug's population in either table |
| `PauseReasons.RetypeSelfChecks` | app/migrations/versions/97b60e06d42a_backfill_other_task_priority_transition_.py:179-206 | All four guarded counts are unchanged for every database, and past the conflict check nothing refers to the retired slug |
| `PauseReasons.GuardedMeans` | app/migrations/versions/97b60e06d42a_backfill_other_task_priority_transition_.py:53-79 | The four guarded figures |
| `PauseReasons.RetypeIsIdempotent` | app/migrations/versions/97b60e06d42a_backfill_other_task_priority_transition_.py:125-177 | Running the statements again changes nothing, journal included |
| `PauseReasons.RetypeIsReversible` | app/migrations/versions/97b60e06d42a_backfill_other_task_priority_transition_.py:209-233 | Retype, any writes to the catalog and any to both tables that avoid the journaled rows, downgrade: equals those writes alone |
| `PauseReasons.RetypeRestoresExactly` | app/migrations/versions/97b60e06d42a_backfill_other_task_priority_transition_.py:209-233 | Over any traffic: it equals those writes if and only if every retyped row still there refers to its old catalog row again and carries no transition |
| `PauseReasons.RetypeReversalIsAccepted` | app/migrations/versions/fb10ac7fd439_add_pause_reason_id_to_step_state_.py:46-53 | In such a run the foreign key rejects that downgrade if and only if the traffic removed a catalog row that a retyped record had pointed at |
| `PauseReasons.KeptCatalogIsEnough` | app/migrations/versions/97b60e06d42a_backfill_other_task_priority_transition_.py:209-221 | If the traffic removes no row the catalog had, the downgrade is accepted, whatever else happened |
| `PauseReasons.DroppedJournalRestoresNothing` | app/migrations/versions/c8f3d2e60a17_drop_transition_reason_backfill_journal.py:54-69 | Once the retype journal was dropped and recreated empty, undoing the retyping restores the database if and only if nothing had been retyped |
| `PauseReasons.RetypedRowsAloneCannotRestore` | app/migrations/versions/c8f3d2e60a17_drop_transition_reason_backfill_journal.py:16-20 | No function of the rows and the catalog restores every retyped database, so which rows to restore is not derivable without the journal |
| `PauseReasons.DowngradeGuardIsExact` | app/migrations/versions/b4e7a1c93f28_retire_system_pause_reason_machinery.py:121-136 | The guard passes exactly when the global unique slug index can be rebuilt |
| `PauseReasons.RetireRoundTrip` | app/migrations/versions/b4e7a1c93f28_retire_system_pause_reason_machinery.py:138-154 | Upgrade then downgrade restores the catalog exactly when no managed flag was set and no retired row was already deleted |
| `PauseReasons.BackfillExplains` | app/migrations/versions/fb10ac7fd439_add_pause_reason_id_to_step_state_.py:92-100 | After the join every record points at the catalog row of its legacy reason, and only those do |
| `PauseReasons.RetypeExplains` | app/migrations/versions/97b60e06d42a_backfill_other_task_priority_transition_.py:152-164 | Retyping turns exactly the retired slug's explanation into the system transition |
| `PauseReasons.RetypedShift` | app/migrations/versions/97b60e06d42a_backfill_other_task_priority_transition_.py:165-177 | What becomes of each shift row, told from its old columns: one that refers to the retired slug without a transition becomes a typed `other_task_priority` without reference, any other stays |
| `PauseReasons.RetypedRecord` | app/migrations/versions/97b60e06d42a_backfill_other_task_priority_transition_.py:152-164 | The same for each step record |
| `PauseReasons.RetypeJournalTells` | app/migrations/versions/97b60e06d42a_backfill_other_task_priority_transition_.py:125-150 | The journal lists exactly the rewritten rows of both tables, each with the reference it lost |
| `PauseReasons.ConflictMeans` | app/migrations/versions/97b60e06d42a_backfill_other_task_priority_transition_.py:85-108 | The revision refuses exactly over a row that refers to the retired slug and carries a transition |
| `PauseReasons.RetiredMeans` | app/migrations/versions/b4e7a1c93f28_retire_system_pause_reason_machinery.py:69-115 | After an accepted retirement every row with the retired slug is deleted, none of the three tables refers to one, no flag is set, and nothing else in the catalog moved |
| `PauseReasons.UnreferencedIsAccepted` | app/migrations/versions/b4e7a1c93f28_retire_system_pause_reason_machinery.py:72-93 | A retirement that nothing refers to is not refused |
| `PauseReasons.UnretiredMeans` | app/migrations/versions/b4e7a1c93f28_retire_system_pause_reason_machinery.py:138-154 | The downgrade revives the retired slug's rows and moves nothing else |
| `PauseReasons.AnchorMeans` | app/migrations/versions/fb10ac7fd439_add_pause_reason_id_to_step_state_.py:69-90 | The anchor goes in soft-deleted and unmanaged, under its own slug, in the first workspace |
| `PauseReasons.SeededRowMeans` | app/migrations/versions/49bd666da846_seed_default_pause_reasons.py:45-52 | Every seeded row is live, in the first workspace, under a default's slug, and system-managed exactly for the two system defaults |
| `PauseReasons.ExplainedBeforeCollapse` | app/migrations/versions/b58cdffb5ccc_remove_step_event_reason_enum.py:31-34 | Across the enum drop, retyping and retirement, with application traffic between, a record keeps its state and its legacy explanation |
| `PauseReasons.MeaningIsPreserved` | app/migrations/versions/2645b4327b17_collapse_ended_shift_step_state.py:203-242 | End to end: for every legacy record the chain accepts, the final explanation is a fixed translation of its original state and legacy reason |
| `PauseReasons.UnclassifiableMeansUncarried` | app/migrations/versions/2645b4327b17_collapse_ended_shift_step_state.py:133-152 | A record that came through the chain is one the collapse cannot classify if and only if it began as an ended shift blamed on another task |
| `PauseReasons.ChainRefusesExactly` | app/migrations/versions/2645b4327b17_collapse_ended_shift_step_state.py:133-152 | When every record came through the chain, the collapse refuses if and only if one of them began as that |
| `PauseReasons.StraightTravels` | app/migrations/versions/fb10ac7fd439_add_pause_reason_id_to_step_state_.py:41-110 | Every record of every legacy database that passes the gate and takes the anchor travels the chain, when nothing is written in between |
| `PauseReasons.SomeRecordTravels` | app/migrations/versions/fb10ac7fd439_add_pause_reason_id_to_step_state_.py:41-110 | For every state and every legacy reason some record does |
| `PauseReasons.ReasonDatabase.SeedDefaults` | app/migrations/versions/49bd666da846_seed_default_pause_reasons.py:72-91 | The loop of inserts, exactly when it applies, and the catalog it leaves |
| `PauseReasons.ReasonDatabase.BackfillReferences` | app/migrations/versions/fb10ac7fd439_add_pause_reason_id_to_step_state_.py:41-110 | Exactly when the revision applies (gate and anchor), and what it leaves |
| `PauseReasons.ReasonDatabase.Retype` | app/migrations/versions/97b60e06d42a_backfill_other_task_priority_transition_.py:82-206 | Refuses exactly over a conflicted row; otherwise leaves both tables and the journal retyped |
| `PauseReasons.ReasonDatabase.UndoRetype` | app/migrations/versions/97b60e06d42a_backfill_other_task_priority_transition_.py:209-233 | Applies exactly when the journal exists and no restored reference has lost its catalog row, and leaves the restored tables |
| `PauseReasons.ReasonDatabase.DropJournal` | app/migrations/versions/c8f3d2e60a17_drop_transition_reason_backfill_journal.py:54-59 | Needs the table, and drops it |
| `PauseReasons.ReasonDatabase.RecreateJournal` | app/migrations/versions/c8f3d2e60a17_drop_transition_reason_backfill_journal.py:62-69 | Needs its absence, and creates it empty |
| `PauseReasons.ReasonDatabase.Retire` | app/migrations/versions/b4e7a1c93f28_retire_system_pause_reason_machinery.py:60-115 | Applies exactly when nothing refers to the slug and the check constraint holds of every record |
| `PauseReasons.ReasonDatabase.UndoRetire` | app/migrations/versions/b4e7a1c93f28_retire_system_pause_reason_machinery.py:118-154 | Applies exactly when slugs are globally unique, and leaves them so |
| `Valuations.CopyRows` | app/migrations/versions/5420acc6a7b3_migrate_item_money_to_valuations.py:102-139 | The copy loop, in any row order: one fresh valuation per chosen item, one-to-one, and the journal stamped accordingly |
| `Valuations.ChosenItems` | app/migrations/versions/5420acc6a7b3_migrate_item_money_to_valuations.py:77-100 | Behind the preflight the copied items are exactly the live ones with an amount and no valuation |
| `Valuations.ChosenMeans` | app/migrations/versions/5420acc6a7b3_migrate_item_money_to_valuations.py:88-97 | Which items the copy selects over any store |
| `Valuations.PreflightMeans` | app/migrations/versions/5420acc6a7b3_migrate_item_money_to_valuations.py:206-215 | The preflight refuses exactly over an item with an amount and no currency, a negative part or no creator |
| `Valuations.CopyIsSound` | app/migrations/versions/5420acc6a7b3_migrate_item_money_to_valuations.py:103-128 | Existing valuations untouched; for exactly the chosen items one current valuation that holds the item's price, cost, currency, workspace and creator and has no successor; at most one current valuation per item |
| `Valuations.NothingLeftBehind` | app/migrations/versions/5420acc6a7b3_migrate_item_money_to_valuations.py:160-185 | The "eligible item left unmigrated" check can never fire |
| `Valuations.PostconditionsAreExact` | app/migrations/versions/5420acc6a7b3_migrate_item_money_to_valuations.py:142-200 | The three postconditions raise if and only if a journal left behind lists an item without money or a valuation that is superseded or deleted; never from a fresh journal |
| `Valuations.StaleJournalTripsTheCheck` | app/migrations/versions/5420acc6a7b3_migrate_item_money_to_valuations.py:187-200 | A concrete journal, whose valuation was deleted since, over which they raise |
| `Valuations.ItemStore.Upgrade` | app/migrations/versions/5420acc6a7b3_migrate_item_money_to_valuations.py:203-220 | Exactly when it refuses, fails (missing columns, stale journal) or commits, and the whole resulting store |
| `Valuations.ItemStore.Downgrade` | app/migrations/versions/5420acc6a7b3_migrate_item_money_to_valuations.py:223-246 | Succeeds exactly when the columns and the journal exist and no valuation that stays points at one that goes, and restores the money and the valuations |
| `Valuations.ItemStore.DropColumns` | app/migrations/versions/be9dfe42a035_drop_legacy_item_money_columns.py:22-28 | Succeeds exactly when the journal and the columns exist, blanks all money, keeps the journal |
| `Valuations.ItemStore.AddColumns` | app/migrations/versions/be9dfe42a035_drop_legacy_item_money_columns.py:31-41 | Succeeds exactly when the columns are gone, and adds them back empty |
| `Valuations.MoneyComesBack` | app/migrations/versions/be9dfe42a035_drop_legacy_item_money_columns.py:22-41 | Upgrade 5420, upgrade be9d, application traffic of any kind on the valuations, downgrade both, when accepted: every item's three money fields come back, and the valuations are those the same traffic would have left, less the ones written under copied ids |
| `Valuations.DropIsReversible` | app/migrations/versions/be9dfe42a035_drop_legacy_item_money_columns.py:22-41 | When that traffic leaves the copied valuations alone, both are exactly what it would have left without the migration |
| `Valuations.DropReversalIsAccepted` | app/migrations/versions/90cdd23a828e_item_economics_schema.py:323-326 | For any traffic: that last downgrade is blocked by the foreign key if and only if a valuation that was not copied names a copied one, still there, as its successor |
| `Valuations.RepricingNeverBlocks` | app/beyo_manager/services/commands/item_economics/_common.py:118-168 | Traffic that only ever points old valuations at new ones, as the application's price writer does, never blocks it |
| `Valuations.RepricedItemComesBack` | app/beyo_manager/services/commands/item_economics/_common.py:118-168 | One repriced migrated item: the downgrade goes through, all money is back, and of the valuations only the new one is added |
| `Valuations.QuietDropComesBack` | app/migrations/versions/5420acc6a7b3_migrate_item_money_to_valuations.py:223-246 | Without valuation traffic it is never blocked, so everything comes back |
| `Valuations.SuccessorBlocksTheDrop` | app/migrations/versions/90cdd23a828e_item_economics_schema.py:323-326 | One newer valuation that names a copied one as its successor, which the database allows and that writer never produces, blocks it |
| `Valuations.DropAloneIsLossy` | app/migrations/versions/be9dfe42a035_drop_legacy_item_money_columns.py:26-28 | Without the journal no function restores the dropped columns |
| `Drafts.OldImpliesNew` | app/migrations/versions/3b8d2f7a9c41_make_stock_report_versions_draftable.py:70-96 | Every database legal under the old constraints satisfies every new index and check, with no row touched |
| `Drafts.IndexesMean` | app/migrations/versions/3b8d2f7a9c41_make_stock_report_versions_draftable.py:44-45 | The partial unique indexes: no two open versions of a workspace and no two open snapshots of a row; after the upgrade only active ones count |
| `Drafts.SharedMeans` | app/migrations/versions/11e1d0d47686_create_stock_report_snapshot_tables.py:164-177 | The foreign key and one snapshot per version and row |
| `Drafts.VersionRowMeans` | app/migrations/versions/3b8d2f7a9c41_make_stock_report_versions_draftable.py:128-137 | A version is closed only once activated and scheduled only as a draft |
| `Drafts.SnapshotRowMeans` | app/migrations/versions/3b8d2f7a9c41_make_stock_report_versions_draftable.py:170-197 | A draft snapshot has no scanned quantity and is not closed, an active one has a scanned and a missing one, none is negative |
| `Drafts.NarrowedIsOldLegal` | app/migrations/versions/3b8d2f7a9c41_make_stock_report_versions_draftable.py:335-373 | Past the guard the old NOT NULLs, checks and unique indexes hold if and only if no snapshot is a draft |
| `Drafts.GuardSuffices` | app/migrations/versions/3b8d2f7a9c41_make_stock_report_versions_draftable.py:230-247 | If a snapshot is a draft exactly when its version is, passing the guard suffices |
| `Drafts.GuardAloneIsNotEnough` | app/migrations/versions/3b8d2f7a9c41_make_stock_report_versions_draftable.py:361-373 | Without that rule, which no constraint enforces, a database passes the guard and then fails |
| `Drafts.DowngradeLoses` | app/migrations/versions/3b8d2f7a9c41_make_stock_report_versions_draftable.py:249-251 | What a downgrade loses: it is the identity exactly when no title, no keep-missing flag and no manual source was stored |
| `Drafts.ReportDatabase.Upgrade` | app/migrations/versions/3b8d2f7a9c41_make_stock_report_versions_draftable.py:55-209 | No index or check creation can fail over a legal database; the rows stay |
| `Drafts.ReportDatabase.Downgrade` | app/migrations/versions/3b8d2f7a9c41_make_stock_report_versions_draftable.py:230-373 | Exactly when the guard refuses, a constraint fails or the downgrade applies, and that the result is legal in the old schema |
| `Payloads.StatementsAreCanonical` | app/migrations/versions/d8e4f1a2c6b7_add_shopify_product_sync_origins.py:100-163 | The three UPDATEs in order equal one rewrite of each row, for every JSON payload |
| `Payloads.ContractHolds` | app/migrations/versions/d8e4f1a2c6b7_add_shopify_product_sync_origins.py:100-163 | Unfinished rows with an adjustments array end without it and with quantities (their own, else the element-wise translation in order); everything else and every finished row is unchanged |
| `Payloads.TranslatedInOrder` | app/migrations/versions/d8e4f1a2c6b7_add_shopify_product_sync_origins.py:108-121 | The i-th quantity names the location of the i-th adjustment and takes the quantity it was to add |
| `Payloads.OthersUntouched` | app/migrations/versions/d8e4f1a2c6b7_add_shopify_product_sync_origins.py:124-125 | Rows that are finished or got as far as the inventory do not change; the others change only payload and mode |
| `Payloads.AdjustmentsGone` | app/migrations/versions/d8e4f1a2c6b7_add_shopify_product_sync_origins.py:124-139 | Exactly which unfinished rows end without adjustments |
| `Payloads.CanonicalIsIdempotent` | app/migrations/versions/d8e4f1a2c6b7_add_shopify_product_sync_origins.py:100-163 | Rerunning changes nothing |
| `Payloads.SyncTable.Upgrade` | app/migrations/versions/d8e4f1a2c6b7_add_shopify_product_sync_origins.py:100-163 | The statements over the whole table |
| `Eligibility.SummarizeTasks` | app/scripts/sleep_eligibility.py:176-204 | Conservation for every input and iteration order: all counts are state totals plus orphan totals, each state total is the sum of the types listed under it, the types listed are exactly the consumed ones with work, and each orphan queue's total is the sum of the orphans that wait there |
| `Eligibility.HasWorkMeans` | app/scripts/sleep_eligibility.py:149-152 | A state has work exactly when a type whose queue some worker drains has a count there |
| `Eligibility.DueWorkMeans` | app/scripts/sleep_eligibility.py:193-197 | A retry is due exactly when such a type has one |
| `Eligibility.ActivityReasons` | app/scripts/sleep_eligibility.py:266-290 | No activity reason exactly when a reference exists, it is old enough and nothing happened since; each reason tells the idle time, the threshold and the reference it was measured from |
| `Eligibility.RunningReason` | app/scripts/sleep_eligibility.py:294-296 | The reason appears exactly when a consumed type is in progress or retrying, lists exactly those types with their own counts, and counts their sum |
| `Eligibility.OpenReason` | app/scripts/sleep_eligibility.py:297-302 | The reason appears exactly when a consumed type is open, lists exactly those types with their own counts, and counts their sum |
| `Eligibility.PendingReason` | app/scripts/sleep_eligibility.py:297-302 | The reason appears exactly when a consumed type is pending, lists exactly those types with their own counts, and counts their sum |
| `Eligibility.DueReason` | app/scripts/sleep_eligibility.py:303-304 | The reason appears exactly when a consumed type is due for a retry, lists exactly those types with their own counts, and counts their sum |
| `Eligibility.SessionReasons` | app/scripts/sleep_eligibility.py:311-318 | A migration reason appears exactly on a lock or a session, a copy reason exactly on a copy session |
| `Eligibility.BacklogReason` | app/scripts/sleep_eligibility.py:306-309 | The queue reason appears exactly when a consumed queue holds something |
| `Eligibility.HostReasons` | app/scripts/sleep_eligibility.py:320-322 | Every host reason is reported, in order |
| `Eligibility.SafeMeansNoneCalledFor` | app/scripts/sleep_eligibility.py:254-353 | A stop is safe if and only if the readings call for no reason of any kind |
| `Eligibility.Evaluate` | app/scripts/sleep_eligibility.py:254-353 | Eligible if and only if the quantified specification of a safe stop holds; a reason of each kind (activity, running, open, pending, due, queue, migration, copy, host) is given if and only if the readings call for it; what each reason says is what was read |
| `Eligibility.OrphansNeverMatter` | app/scripts/sleep_eligibility.py:149-152 | Two readings that agree on consumed types and queues get the same verdict |
| `Eligibility.ExitCodeMeaning` | app/scripts/sleep_eligibility.py:627-630 | Exit 0 exactly when eligible, exit 2 exactly when the check failed or a host reason claims so |
| `Eligibility.OnlyFailuresAreFailures` | app/scripts/sleep_eligibility.py:246-251 | No reason the verdict itself produces can be mistaken for a failed check |
| `Eligibility.HalvesIdentifyTheLock` | app/scripts/sleep_eligibility.py:426-427 | Two signed 64-bit lock keys have the same 32-bit halves only if they are equal |
| `Eligibility.HalvesMeanTheKey` | app/scripts/sleep_eligibility.py:426-427 | The first half is the high one: together the halves are the key as an unsigned number |
| `Drain.PollRemaining` | app/scripts/sleep_drain.py:74-84 | A poll is drained exactly when no consumed type is open, pending, in progress or retrying and no consumed queue holds anything |
| `Drain.DrainAgreesWithEligibility` | app/scripts/sleep_drain.py:83-84 | Drained if and only if the verdict on the same readings has none of the in-progress, open, pending or queue reasons |
| `Drain.PollsIsCeilingPlusOne` | app/scripts/sleep_drain.py:135-138 | The bound on polls is ceil(timeout/poll) + 1 |
| `Drain.DrainLoop` | app/scripts/sleep_drain.py:118-148 | The loop ends within the bound, each sleep is the poll interval or the time left, whichever is less, it reports drained only on a drained last poll, times out only past the deadline, aborts only on a signal, fails only when a read raises |
| `MigrateJobs.AlwaysInv` | app/scripts/migrate.py:157-197 | The invariant holds in every reachable state of every interleaving |
| `MigrateJobs.StepFrame` | app/scripts/migrate.py:141-154 | A step changes no other job, writes the database only under the lock, and takes or gives back only a free or own lock |
| `MigrateJobs.MutualExclusion` | app/scripts/migrate.py:164-180 | In every interleaving at most one job runs steps |
| `MigrateJobs.TriggersAfterUpgrade` | app/scripts/migrate.py:125-138 | Triggers run only after a successful upgrade by the same job |
| `MigrateJobs.QuietExits` | app/scripts/migrate.py:164-178 | Exits 2 and 4, and 3 for the check: no step that job ever took changed the database or began the triggers; every change of the database in the run was another job's |
| `MigrateJobs.SuccessMeansAtHeads` | app/scripts/migrate.py:182-191 | Exit 0 means the database was at that job's own heads at that moment |
| `MigrateJobs.AtHeadsMeansSuccess` | app/scripts/migrate.py:182-191 | Steps that ended well give exit 0 exactly over a database at the job's heads, unless the second read raises |
| `MigrateJobs.FailedStepsFail` | app/scripts/migrate.py:182-191 | Failed steps give exit 1 whatever the database holds |
| `MigrateJobs.CheckMeans` | app/scripts/migrate.py:200-216 | The check answers 0 at the heads, 4 over a revision its code does not know, else 3, and changes nothing |
| `MigrateJobs.FirstReadMeans` | app/scripts/migrate.py:170-180 | A revision the code does not know ends the job with 4, else its steps start |
| `MigrateJobs.WaitingMeans` | app/scripts/migrate.py:141-154 | A job gives up waiting only while another holds the lock, and takes the lock only when it is free |
| `MigrateJobs.SomeRunSucceeds` | app/scripts/migrate.py:157-197 | Over any database its code knows, some run of a job alone ends with exit 0 at its heads and the lock free |
| `MigrateJobs.WaitingMayEnd` | app/scripts/migrate.py:149-150 | A job that waits for a taken lock may time out |
| `MigrateJobs.ReadingMayRaise` | app/scripts/migrate.py:162-197 | A job that connects, waits or reads may end with exit 1 |
| `MigrateJobs.UpgradeMayStop` | app/scripts/migrate.py:125-138 | An upgrade may stop or fail after any revisions its code knows |
| `MigrateJobs.LockIsReleased` | app/scripts/migrate.py:192-197 | The lock is free exactly when no job is between lock and unlock, so every finished run leaves it free |
| `MigrateJobs.HolderOwnsDatabase` | app/scripts/migrate.py:180-182 | While a job holds the lock, any change of the database is its own |
| `MigrateJobs.UpgradesOnlyKnown` | app/scripts/migrate.py:170-180 | Steps start only on a database all of whose revisions the job's code knows |
| `MigrateJobs.LostSessionBreaksExclusion` | app/scripts/migrate.py:141-154 | Why the lock session must stay alive: if it is lost, a waiting job joins the running one |
| `Cleanup.DecisionMeaning` | app/scripts/backfill/cleanup_duplicate_item_upholsteries.py:73-150 | The decision equals an order-free specification; a decided group splits into one kept row and all others, none unfinished |
| `Cleanup.ArchiveIsRight` | app/scripts/backfill/cleanup_duplicate_item_upholsteries.py:130-149 | The second unsafe check can never fire |
| `Cleanup.OrderNeverMatters` | app/scripts/backfill/cleanup_duplicate_item_upholsteries.py:73-78 | The same rows in any order give the same verdict, keeper and archive |
| `Cleanup.SkippedMeans` | app/scripts/backfill/cleanup_duplicate_item_upholsteries.py:79-114 | A group is skipped exactly when a row points at a requirement that was not read or two rows point at open ones |
| `Cleanup.SettledIsDecided` | app/scripts/backfill/cleanup_duplicate_item_upholsteries.py:96-104 | A group whose pointers all lead to completed or failed requirements is decided |
| `Cleanup.KeptMeans` | app/scripts/backfill/cleanup_duplicate_item_upholsteries.py:116-128 | The kept row, told from the columns: the one with an open requirement, else the only one with an upholstery, else the first created, by id among equals |
| `Cleanup.ArchivedMeans` | app/scripts/backfill/cleanup_duplicate_item_upholsteries.py:130-130 | All the other rows are archived |
| `Cleanup.DuplicatesMean` | app/scripts/backfill/cleanup_duplicate_item_upholsteries.py:153-170 | An item is a duplicate exactly when it is selected and two live rows carry it |
| `Cleanup.KnownMeans` | app/scripts/backfill/cleanup_duplicate_item_upholsteries.py:204-219 | The requirements a run knows are the live ones whose owner is a live row of a loaded group |
| `Cleanup.CleanedMeans` | app/scripts/backfill/cleanup_duplicate_item_upholsteries.py:284-288 | A run marks rows as deleted and changes nothing else |
| `Cleanup.ArchivedRowsAreFinished` | app/scripts/backfill/cleanup_duplicate_item_upholsteries.py:130-149 | No row the run archives points at an unfinished requirement |
| `Cleanup.OwnersSurvive` | app/scripts/backfill/cleanup_duplicate_item_upholsteries.py:239-303 | A run leaves every open requirement under a live owner if and only if each one's owner is outside the duplicate groups, in a skipped group, or the row its group keeps |
| `Cleanup.PointingOwnersSurvive` | app/scripts/backfill/cleanup_duplicate_item_upholsteries.py:63-70 | It does when every open requirement is its owner's active one |
| `Cleanup.TwoOwnersLoseOne` | app/scripts/backfill/cleanup_duplicate_item_upholsteries.py:96-128 | It never does when two rows of a decided group own open requirements |
| `Cleanup.UnpointedOwnerIsArchived` | app/scripts/backfill/cleanup_duplicate_item_upholsteries.py:77-77 | A concrete group whose archived row owns an open requirement |
| `Cleanup.LeftoverWasSkipped` | app/scripts/backfill/cleanup_duplicate_item_upholsteries.py:153-170 | A group that still has duplicates after a run was skipped and is unchanged |
| `Cleanup.SecondRunArchivesNothing` | app/scripts/backfill/cleanup_duplicate_item_upholsteries.py:239-303 | A second run archives nothing |
| `Cleanup.OneRowSurvives` | app/scripts/backfill/cleanup_duplicate_item_upholsteries.py:260-288 | Every decided group ends with exactly its kept row live |
| `Cleanup.CleanGroup` | app/scripts/backfill/cleanup_duplicate_item_upholsteries.py:260-288 | One turn of the run: rows marked and both counters advanced |
| `Cleanup.CleanGroups` | app/scripts/backfill/cleanup_duplicate_item_upholsteries.py:257-303 | The run over all groups in any order: the whole table and both counters |
| `Cleanup.UpholsteryTable.CleanUp` | app/scripts/backfill/cleanup_duplicate_item_upholsteries.py:239-303 | The whole run: groups found, rows archived, groups skipped, and the table left behind; a dry run changes nothing |
| `Rollups.CollectCounts` | app/scripts/backfill/backfill_completed_count.py:100-122 | The streaming tallies equal the number of completions per user-day, user-section-day and step, and the coarse ones are the sums of the fine ones |
| `Rollups.CreditGoesTo` | app/scripts/backfill/backfill_completed_count.py:103-112 | A completion counts on its day for the credited user, or the one who did it when nobody is credited |
| `Rollups.SectionCreditGoesTo` | app/scripts/backfill/backfill_completed_count.py:113-117 | And in its section, when it has one |
| `Rollups.StepCreditGoesTo` | app/scripts/backfill/backfill_completed_count.py:110-110 | And for its step |
| `Rollups.WriteTable` | app/scripts/backfill/backfill_completed_count.py:132-216 | Zero, then set or create: each row holds its tally or zero, an existing row keeps its other columns, and a row is created exactly for a tallied key that had none |
| `Rollups.WriteSteps` | app/scripts/backfill/backfill_completed_count.py:218-224 | The same for steps, which are never created |
| `Rollups.CompletedRollupsAgree` | app/scripts/backfill/backfill_completed_count.py:132-216 | After a full run, whatever the tables held before: daily and lifetime counters each add up to the number of completions, the section tables to those in a section, lifetime is the sum of days, section-day the sum over users, each row holds its own completions or zero |
| `Rollups.StepCountersAddUp` | app/scripts/backfill/backfill_completed_count.py:218-224 | Step counters hold each step's completions, and add up to the number of completions exactly when every completion's step has a row |
| `Rollups.RebuildForgets` | app/scripts/backfill/backfill_completed_count.py:135-141 | The counters depend on the source only, not on earlier contents, and rewriting them again changes nothing |
| `Rollups.RebuildSummary` | app/scripts/backfill/backfill_averaged_time.py:130-207 | Zero, then one row per group: every one of the eleven columns of each summary row is the sum of its details, other rows are zero, and each column's totals agree |
| `Timeline.GapOwner` | app/beyo_manager/domain/analytics/linear_timeline.py:220-239 | The owner picked for a gap is the pause that owns each instant: highest priority, then earliest, then smallest id |
| `Timeline.GapMeaning` | app/beyo_manager/domain/analytics/linear_timeline.py:205-264 | Each instant of a gap has the state, reason, transition and priority the gap was given |
| `Timeline.SweepTiles` | app/beyo_manager/domain/analytics/linear_timeline.py:201-266 | Raw segments partition the span of the records |
| `Timeline.SweepMeaning` | app/beyo_manager/domain/analytics/linear_timeline.py:162-266 | Raw segments are right at every instant |
| `Timeline.MergeKeepsMeaning` | app/beyo_manager/domain/analytics/linear_timeline.py:319-349 | Merging keeps the tiling and the meaning, and leaves no two neighbours that say the same unless a hard break separates them |
| `Timeline.SegmentsMeaning` | app/beyo_manager/domain/analytics/linear_timeline.py:298-368 | The timeline is a partition of the span whose neighbours differ in state, reason, transition or priority unless a hard break separates them, and each run says of each instant what the reference semantics says |
| `Timeline.StateMeans` | app/beyo_manager/domain/analytics/linear_timeline.py:1-19 | The state at an instant, told from the records' own columns: work that spans it, else a pause that spans it with no work begun since, else off-shift time, else idle |
| `Timeline.OwnerMeans` | app/beyo_manager/domain/analytics/linear_timeline.py:29-32 | The owner of a paused instant has the highest priority, then the earliest start, then the smallest id |
| `Timeline.PauseLabelMeans` | app/beyo_manager/domain/analytics/linear_timeline.py:229-236 | A pause is labelled with its owner's reason and transition, or `unspecified` when it has neither |
| `Timeline.SegmentsListContributors` | app/beyo_manager/domain/analytics/linear_timeline.py:333-360 | Every run lists exactly the records that count in its state at some instant of it |
| `Timeline.SpanMeaning` | app/beyo_manager/domain/analytics/linear_timeline.py:201-206 | The timeline begins at the first live start or hard break inside the window and ends at the last live end or hard break |
| `Timeline.RunsNameOwners` | app/beyo_manager/domain/analytics/linear_timeline.py:337-349 | A run names the pause that owns its first instant, and none when it is not a pause |
| `Timeline.OtherRunsAreBare` | app/beyo_manager/domain/analytics/linear_timeline.py:210-246 | Runs that are not pauses carry no reason, transition, priority or owner |
| `Timeline.SegmentsReordered` | app/beyo_manager/domain/analytics/linear_timeline.py:298-349 | Records read in any order, with distinct ids, give the same timeline |
| `Timeline.ClassifyGaps` | app/beyo_manager/domain/analytics/linear_timeline.py:205-264 | The classifying loop |
| `Timeline.MergeRuns` | app/beyo_manager/domain/analytics/linear_timeline.py:319-349 | The merging loop |
| `Timeline.LinearSegments` | app/beyo_manager/domain/analytics/linear_timeline.py:298-368 | The segments view as a whole |
| `Timeline.TotalsMeaning` | app/beyo_manager/domain/analytics/linear_timeline.py:269-285 | Each bucket is the number of instants in that state, and the four buckets partition the elapsed span |
| `Timeline.ReasonsMeaning` | app/beyo_manager/domain/analytics/linear_timeline.py:276-288 | Each bucket of the pause breakdown is the number of paused instants whose owning pause belongs to it |
| `Timeline.BucketMeans` | app/beyo_manager/domain/analytics/linear_timeline.py:281-284 | A pause's bucket is its own reason, else its transition, else the unattributed one |
| `Timeline.BreaksSeparateRuns` | app/beyo_manager/domain/analytics/linear_timeline.py:305-331 | No run of the timeline straddles a hard break |
| `Timeline.LinearTimeline` | app/beyo_manager/domain/analytics/linear_timeline.py:269-295 | The roster totals before rounding: instants per state, adding up to the span, with a pause breakdown that adds up to the paused time and partitions it by owner |
| `Timeline.HistoryIsStable` | app/beyo_manager/domain/analytics/linear_timeline.py:145-153 | A finished window gives the same timeline at every later moment |
| `ShiftBackfill.RecordsFromSegments` | app/scripts/backfill/backfill_worker_shift_state_records.py:113-169 | The loop with its early break builds a start marker, the rows before the first off-shift segment and an end marker |
| `ShiftBackfill.ShiftEnd` | app/scripts/backfill/backfill_worker_shift_state_records.py:134-138 | The end marker stands at the first off-shift instant, or at the end of the span |
| `ShiftBackfill.ShiftTime` | app/scripts/backfill/backfill_worker_shift_state_records.py:135-156 | Working, paused and idle time in the rows is the number of instants in that state before the end of the shift |
| `ShiftBackfill.RebuiltIsTrue` | app/scripts/backfill/backfill_worker_shift_state_records.py:113-169 | For any contiguous segments: markers, rows that meet without gap or overlap, every instant covered by a row of its state, pause rows with the reason and transition of their label, durations conserved |
| `ShiftBackfill.RebuiltShiftMeaning` | app/scripts/backfill/backfill_worker_shift_state_records.py:181-200 | The same for the segments the sweep really produces, against the reference semantics of the worker's records: a pause row tells the reason and transition of a pause that owns its instants |
| `ShiftBackfill.RebuiltDayIsTrue` | app/scripts/backfill/backfill_worker_shift_state_records.py:50-110 | A rebuilt day against the step records' own columns: start marker where the worker's first record begins, end marker at the first instant of a `shift_ended` pause nothing overrides or where the records end, and rows whose state, reason and transition are what the records say of each instant |
| `ShiftBackfill.EmptyDayMeans` | app/scripts/backfill/backfill_worker_shift_state_records.py:79-90 | A day is rebuilt to nothing exactly when no live record of the worker touches it |
| `ShiftBackfill.RebuiltDayTimes` | app/scripts/backfill/backfill_worker_shift_state_records.py:135-156 | Working, paused and idle time in the rows is the number of instants the step records give each before the end |
| `ShiftBackfill.DayStateMeans` | app/beyo_manager/domain/analytics/time_buckets.py:23-34 | The swept state is the state the records tell: a pause that carries `shift_ended` is off-shift time |
| `ShiftBackfill.IntervalMeans` | app/scripts/backfill/backfill_worker_shift_state_records.py:91-110 | Each column of an interval comes from its record |
| `ShiftBackfill.LoadsMeans` | app/scripts/backfill/backfill_worker_shift_state_records.py:79-90 | Which records a day loads |
| `ShiftBackfill.ShiftTable.BackfillDay` | app/scripts/backfill/backfill_worker_shift_state_records.py:172-215 | Delete the worker's rows that begin in the day, add the rebuilt ones; a dry run changes nothing |
| `ShiftBackfill.ShiftTable.BackfillAll` | app/scripts/backfill/backfill_worker_shift_state_records.py:297-331 | The run over all targets |
| `ShiftBackfill.DayRecordsBegin` | app/scripts/backfill/backfill_worker_shift_state_records.py:190-200 | Rebuilt rows begin inside their day, except that the end marker may fall on the next midnight |
| `ShiftBackfill.RunResult` | app/scripts/backfill/backfill_worker_shift_state_records.py:201-211 | Of the rows that begin on a rewritten day the table holds exactly those rebuilt for that day, so an end marker the day before put on its midnight is gone; any other day keeps its rows and may gain such a marker |
| `ShiftBackfill.RebuiltSurvive` | app/scripts/backfill/backfill_worker_shift_state_records.py:201-211 | For any rebuild: a rewritten day's rows are all in the table if and only if its shift does not end on a midnight whose day is also rewritten without that marker |
| `ShiftBackfill.LosesEndMeaning` | app/scripts/backfill/backfill_worker_shift_state_records.py:134-138 | When a rewritten day loses its end marker, told from the records: on shift right up to midnight, the next day rewritten too, and not off shift from midnight on |
| `ShiftBackfill.BackfillKeepsShifts` | app/scripts/backfill/backfill_worker_shift_state_records.py:172-211 | The same over whole runs of the real rebuild: the rebuilt shift is in the table if and only if that is not so |
| `ShiftBackfill.OvernightLosesMarker` | app/scripts/backfill/backfill_worker_shift_state_records.py:202-209 | A record worked over midnight: the run selects both days, the first day's rebuilt shift ends with a marker, the table the run leaves has none |
| `ShiftBackfill.RerunIsIdempotent` | app/scripts/backfill/backfill_worker_shift_state_records.py:1-6 | Rerunning changes nothing if and only if no rewritten shift ends on a midnight whose day is not rewritten |
| `ShiftBackfill.BackfillIsIdempotent` | app/scripts/backfill/backfill_worker_shift_state_records.py:1-6 | The same for the real rebuild, over any two readings of the records in any order |
| `ShiftBackfill.EndsOnMidnightMeaning` | app/scripts/backfill/backfill_worker_shift_state_records.py:134-138 | When a shift ends on midnight, told from the records alone: one reaches midnight and the worker is never off shift that day |
| `ShiftBackfill.MidnightExitRepeatsMarker` | app/scripts/backfill/backfill_worker_shift_state_records.py:202-209 | A record that ends exactly on midnight: the run selects only its own day, and every rerun changes the table |
| `ShiftBackfill.RebuildIgnoresNow` | app/scripts/backfill/backfill_worker_shift_state_records.py:190-195 | A historical day is rebuilt the same way at every later moment |
| `ShiftBackfill.RebuildIgnoresOrder` | app/scripts/backfill/backfill_worker_shift_state_records.py:61-90 | And whatever the order in which its records are read |
| `ShiftBackfill.AddDays` | app/scripts/backfill/backfill_worker_shift_state_records.py:272-275 | The day cursor adds exactly the days from first to last |
| `ShiftBackfill.CollectTargets` | app/scripts/backfill/backfill_worker_shift_state_records.py:258-276 | The targets are exactly the worker-days some selected record reaches |
| `ShiftBackfill.TargetMeans` | app/scripts/backfill/backfill_worker_shift_state_records.py:231-276 | The targets of a past range, told from the columns and the filters |
| `ShiftBackfill.ReachedDays` | app/scripts/backfill/backfill_worker_shift_state_records.py:260-275 | Exactly which days a record makes a target, for open, zero-length, midnight-touching and multi-day records |
| `ShiftBackfill.SelectionIsComplete` | app/scripts/backfill/backfill_worker_shift_state_records.py:79-90 | Every worker-day in range for which the loader returns a record is a target |
| `ShiftBackfill.SelectionIgnoresNow` | app/scripts/backfill/backfill_worker_shift_state_records.py:258-276 | Which worker-days a past range selects does not depend on the moment of the run |
| `ShiftBackfill.SelectionIgnoresOrder` | app/scripts/backfill/backfill_worker_shift_state_records.py:258-276 | Nor on the order in which the records are read |
| `ShiftBackfill.SortTargets` | app/scripts/backfill/backfill_worker_shift_state_records.py:276-276 | The targets in tuple order |
| `ShiftBackfill.BackfillRange` | app/scripts/backfill/backfill_worker_shift_state_records.py:279-331 | The command: refuses a range that is not in the past, else selects, sorts and rewrites; a dry run changes nothing |
| `ShiftBackfill.ScriptIsIdempotent` | app/scripts/backfill/backfill_worker_shift_state_records.py:279-331 | The whole script run again over the same range at any later moment, reading the records in any order, changes nothing if and only if no selected worker-day is on shift right up to a midnight whose day is not selected |
| `ShiftBackfill.BackfillRangeTwice` | app/scripts/backfill/backfill_worker_shift_state_records.py:279-331 | The command given twice on one table: the second run leaves the table as the first left it if and only if that is so |

## Left out

- SQL, Alembic, asyncpg, SQLAlchemy and Redis mechanics, locking reads, signals, argument parsing, JSON output and
  log lines: only the row sets read and written are modelled.
- Timestamps such as `updated_at` and `deleted_at`, and history records written beside a change.
- Id generation: fresh ids are an input of `Valuations.CopyRows` and `Valuations.ItemStore.Upgrade`.
- Record ids in the timeline and row ids in the cleanup are integers in the order of the source's strings.
- The task router: the map from task types to queues and the set of consumed queues are parameters.
- The statement of d8e4f1a2c6b7 that derives `sync_origin`, and its schema changes.
- Rounding to whole seconds, `is_open`, step ids and per-record details in the linear timeline.
- `reconcile_user_day_time` and the per-step averages: the time rollups start from the day tables it leaves.
- Timeline.LinearTimeline: gives exact durations, because rounding each bucket to seconds is not the point of the sweep; the breakdown by owner is stated for distinct record ids, which are a primary key.
- MigrateJobs.MutualExclusion: assumes that the lock session stays alive and that no run is cancelled while the thread of its steps still works, because then the lock is given back early; `MigrateJobs.LostSessionBreaksExclusion` shows both.
- MigrateJobs.SuccessMeansAtHeads: assumes the lock session stays alive and the unlock does not raise, as the design does; a run cancelled while its steps work is left out too.
- How long the lock is polled for: a waiting job may time out at any moment at which the lock is taken.
- Non-unique indexes, enum values that are only added, and the quantity and priority columns no revision here touches.
- Downgrades of 49bd666da846, fb10ac7fd439 and b58cdffb5ccc, which delete rows or columns without a journal.
- The remaining migrations, mostly table and index creation, and all services, sockets and workers.
