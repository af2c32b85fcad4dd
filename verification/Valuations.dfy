/**
 * Item money moves into valuations and its three columns are dropped, with a journal as the only record
 * of what they held: revisions 5420acc6a7b3 and be9dfe42a035.
 */
module Valuations {
  import opened Relational

  datatype Currency = SwedishKrona | DanishKrona | Euro

  /** The three legacy columns. */
  datatype Money = Money(value: Option<int>, cost: Option<int>, currency: Option<Currency>)

  const BLANK := Money(None, None, None)

  /** An `items` row: its money, and the columns the application keeps writing. */
  datatype Facts = Facts(workspace: Id, createdBy: Option<Id>, isDeleted: bool, rest: string)
  datatype Item = Item(money: Money, facts: Facts)

  /** An `item_valuations` row. */
  datatype Valuation = Valuation(
    workspace: Id, item: Id, price: Option<int>, cost: Option<int>, currency: Currency,
    superseded: bool, supersededBy: Option<Id>, createdBy: Id, isDeleted: bool)

  datatype Entry = Entry(money: Money, valuation: Option<Id>)

  datatype Store = Store(
    items: map<Id, Item>,
    valuations: map<Id, Valuation>,
    journal: Option<map<Id, Entry>>,
    hasColumns: bool)

  predicate HasAmount(m: Money) {
    m.value.Some? || m.cost.Some?
  }

  predicate NonNegative(m: Money) {
    (m.value.Some? ==> m.value.value >= 0) && (m.cost.Some? ==> m.cost.value >= 0)
  }

  /** Amount without currency, with a negative part, or without a creator. */
  predicate Offends(i: Item) {
    HasAmount(i.money) && (i.money.currency.None? || !NonNegative(i.money) || i.facts.createdBy.None?)
  }

  predicate PreflightFails(items: map<Id, Item>) {
    exists id :: id in items && Offends(items[id])
  }

  /** The preflight refuses exactly over an amount without currency, with a negative part, or without a creator. */
  lemma PreflightMeans(items: map<Id, Item>)
    ensures PreflightFails(items) <==>
              exists id :: && id in items && (items[id].money.value.Some? || items[id].money.cost.Some?)
                           && (|| items[id].money.currency.None? || items[id].facts.createdBy.None?
                               || (items[id].money.value.Some? && items[id].money.value.value < 0)
                               || (items[id].money.cost.Some? && items[id].money.cost.value < 0))
  {
    if id :| id in items && Offends(items[id]) {
      assert items[id].money.value.Some? || items[id].money.cost.Some?;
    }
    if id :| && id in items && (items[id].money.value.Some? || items[id].money.cost.Some?)
             && (|| items[id].money.currency.None? || items[id].facts.createdBy.None?
                 || (items[id].money.value.Some? && items[id].money.value.value < 0)
                 || (items[id].money.cost.Some? && items[id].money.cost.value < 0)) {
      assert Offends(items[id]);
    }
  }

  function LegacyEntries(items: map<Id, Item>): map<Id, Entry> {
    map id | id in items && items[id].money != BLANK :: Entry(items[id].money, None)
  }

  function HeldEntries(s: Store): map<Id, Entry> {
    if s.journal.Some? then s.journal.value else map[]
  }

  predicate HasValuation(valuations: map<Id, Valuation>, item: Id) {
    exists v :: v in valuations && valuations[v].item == item
  }

  /** The SELECT that drives the copy loop. */
  predicate Eligible(items: map<Id, Item>, valuations: map<Id, Valuation>, journal: map<Id, Entry>, id: Id) {
    && id in items && !items[id].facts.isDeleted
    && HasAmount(items[id].money) && items[id].money.currency.Some? && NonNegative(items[id].money)
    && items[id].facts.createdBy.Some?
    && (id in journal ==> journal[id].valuation.None?)
    && !HasValuation(valuations, id)
  }

  function EligibleItems(items: map<Id, Item>, valuations: map<Id, Valuation>, journal: map<Id, Entry>): set<Id> {
    set id | id in items && Eligible(items, valuations, journal, id)
  }

  function NewValuation(id: Id, i: Item): Valuation
    requires i.money.currency.Some? && i.facts.createdBy.Some?
  {
    Valuation(i.facts.workspace, id, i.money.value, i.money.cost, i.money.currency.value, false, None,
              i.facts.createdBy.value, false)
  }

  ghost predicate Fresh(ids: seq<Id>, valuations: map<Id, Valuation>) {
    && (forall i, j :: 0 <= i < j < |ids| ==> ids[i] != ids[j])
    && (forall i :: 0 <= i < |ids| ==> ids[i] !in valuations)
  }

  /** Which valuation each item got, and back: a one-to-one match of `chosen` with new ids. */
  datatype Match = Match(valuationOf: map<Id, Id>, itemOf: map<Id, Id>)

  ghost predicate Assigns(m: Match, chosen: set<Id>, valuations: map<Id, Valuation>) {
    && m.valuationOf.Keys == chosen
    && m.itemOf.Keys !! valuations.Keys
    && (forall i :: i in m.valuationOf ==> m.valuationOf[i] in m.itemOf && m.itemOf[m.valuationOf[i]] == i)
    && (forall v :: v in m.itemOf ==> m.itemOf[v] in m.valuationOf && m.valuationOf[m.itemOf[v]] == v)
  }

  predicate Complete(items: map<Id, Item>, i: Id) {
    i in items && items[i].money.currency.Some? && items[i].facts.createdBy.Some?
  }

  /** One current valuation per matched item. */
  function NewRows(items: map<Id, Item>, itemOf: map<Id, Id>): map<Id, Valuation> {
    map v | v in itemOf && Complete(items, itemOf[v]) :: NewValuation(itemOf[v], items[itemOf[v]])
  }

  function Stamped(journal: map<Id, Entry>, made: map<Id, Id>): map<Id, Entry> {
    map id | id in journal ::
        if id in made && journal[id].valuation.None? then journal[id].(valuation := Some(made[id])) else journal[id]
  }

  lemma AssignOne(m: Match, done: set<Id>, before: map<Id, Valuation>, i: Id, v: Id)
    requires Assigns(m, done, before) && i !in done && v !in before && v !in m.itemOf
    ensures Assigns(Match(m.valuationOf[i := v], m.itemOf[v := i]), done + {i}, before)
  {
    var next := Match(m.valuationOf[i := v], m.itemOf[v := i]);
    assert next.valuationOf.Keys == done + {i} && next.itemOf.Keys == m.itemOf.Keys + {v};
  }

  lemma AssignStep(m: Match, chosen: set<Id>, rest: set<Id>, before: map<Id, Valuation>, i: Id, v: Id)
    requires Assigns(m, chosen - rest, before) && i in rest && rest <= chosen && v !in before && v !in m.itemOf
    ensures Assigns(Match(m.valuationOf[i := v], m.itemOf[v := i]), chosen - (rest - {i}), before)
    ensures |rest - {i}| == |rest| - 1
  {
    assert chosen - (rest - {i}) == (chosen - rest) + {i};
    AssignOne(m, chosen - rest, before, i, v);
  }

  lemma RowsStep(items: map<Id, Item>, before: map<Id, Valuation>, itemOf: map<Id, Id>, i: Id, v: Id)
    requires Complete(items, i) && v !in itemOf
    ensures (before + NewRows(items, itemOf))[v := NewValuation(i, items[i])] == before + NewRows(items, itemOf[v := i])
  {
  }

  /** UPDATE journal SET valuation_client_id WHERE item_client_id = i AND valuation_client_id IS NULL. */
  function StampOne(journal: map<Id, Entry>, i: Id, v: Id): map<Id, Entry> {
    if i in journal && journal[i].valuation.None? then journal[i := journal[i].(valuation := Some(v))] else journal
  }

  lemma StampStep(seeded: map<Id, Entry>, made: map<Id, Id>, i: Id, v: Id)
    requires i !in made
    ensures StampOne(Stamped(seeded, made), i, v) == Stamped(seeded, made[i := v])
  {
  }

  /** The copy loop over the selected items. They come in any order; each gets the next generated id. */
  method CopyRows(items: map<Id, Item>, before: map<Id, Valuation>, seeded: map<Id, Entry>, ids: seq<Id>,
                  chosen: set<Id>)
    returns (valuations: map<Id, Valuation>, journal: map<Id, Entry>, m: Match)
    requires Fresh(ids, before) && |ids| >= |chosen|
    requires forall i :: i in chosen ==> Complete(items, i)
    ensures Assigns(m, chosen, before)
    ensures valuations == before + NewRows(items, m.itemOf)
    ensures journal == Stamped(seeded, m.valuationOf)
  {
    var rest := chosen;
    valuations, journal, m := before, seeded, Match(map[], map[]);
    var k := 0;
    assert NewRows(items, map[]) == map[] && Stamped(seeded, map[]) == seeded;
    while rest != {}
      invariant rest <= chosen && k + |rest| == |chosen|
      invariant Assigns(m, chosen - rest, before)
      invariant forall n :: k <= n < |ids| ==> ids[n] !in m.itemOf
      invariant valuations == before + NewRows(items, m.itemOf)
      invariant journal == Stamped(seeded, m.valuationOf)
      decreases rest
    {
      var i :| i in rest;
      var v := ids[k];
      RowsStep(items, before, m.itemOf, i, v);
      StampStep(seeded, m.valuationOf, i, v);
      AssignStep(m, chosen, rest, before, i, v);
      valuations := valuations[v := NewValuation(i, items[i])];
      journal := StampOne(journal, i, v);
      m := Match(m.valuationOf[i := v], m.itemOf[v := i]);
      rest := rest - {i};
      k := k + 1;
    }
  }

  // ----- the upgrade and its self-checks -----

  function Seeded(s: Store): map<Id, Entry> {
    LegacyEntries(s.items) + HeldEntries(s)
  }

  function Chosen(s: Store): set<Id> {
    EligibleItems(s.items, s.valuations, Seeded(s))
  }

  lemma ChosenAreComplete(s: Store)
    ensures forall i :: i in Chosen(s) ==> Complete(s.items, i)
  {
  }

  function Migrated(s: Store, m: Match): Store {
    s.(valuations := s.valuations + NewRows(s.items, m.itemOf), journal := Some(Stamped(Seeded(s), m.valuationOf)))
  }

  predicate CountMismatch(s: Store)
    requires s.journal.Some?
  {
    |s.journal.value.Keys| != |LegacyEntries(s.items).Keys|
  }

  predicate LeftBehind(s: Store)
    requires s.journal.Some?
  {
    exists id :: id in s.items && Eligible(s.items, s.valuations, s.journal.value, id)
  }

  predicate NotCurrent(valuations: map<Id, Valuation>, v: Option<Id>) {
    v.Some? && v.value in valuations && (valuations[v.value].superseded || valuations[v.value].isDeleted)
  }

  predicate InvalidCreated(s: Store)
    requires s.journal.Some?
  {
    exists id :: id in s.journal.value && NotCurrent(s.valuations, s.journal.value[id].valuation)
  }

  /** A journal left by someone else that lists items without money now, or valuations that are no longer current. */
  predicate StaleJournal(s: Store) {
    || !(HeldEntries(s).Keys <= LegacyEntries(s.items).Keys)
    || (exists id :: id in HeldEntries(s) && NotCurrent(s.valuations, HeldEntries(s)[id].valuation))
  }

  lemma UnionSize(a: set<Id>, b: set<Id>)
    ensures |a + b| == |a| <==> b <= a
  {
    assert a + b == a + (b - a);
    assert |a + (b - a)| == |a| + |b - a|;
    if |b - a| == 0 {
      assert b - a == {};
    }
  }

  lemma CountCheck(s: Store, m: Match)
    ensures CountMismatch(Migrated(s, m)) <==> !(HeldEntries(s).Keys <= LegacyEntries(s.items).Keys)
  {
    var legacy, held := LegacyEntries(s.items).Keys, HeldEntries(s).Keys;
    assert Migrated(s, m).journal.value.Keys == legacy + held;
    UnionSize(legacy, held);
  }

  lemma ValuationsStay(before: map<Id, Valuation>, added: map<Id, Valuation>, item: Id)
    requires before.Keys !! added.Keys && HasValuation(before, item)
    ensures HasValuation(before + added, item)
  {
    var v :| v in before && before[v].item == item;
    assert (before + added)[v] == before[v];
  }

  /** The copy only ever removes eligibility. */
  lemma NeverBecomesEligible(s: Store, m: Match, id: Id)
    requires Assigns(m, Chosen(s), s.valuations) && id !in Chosen(s)
    ensures !Eligible(s.items, Migrated(s, m).valuations, Migrated(s, m).journal.value, id)
  {
    if HasValuation(s.valuations, id) {
      ValuationsStay(s.valuations, NewRows(s.items, m.itemOf), id);
    }
  }

  lemma NothingLeftBehind(s: Store, m: Match)
    requires Assigns(m, Chosen(s), s.valuations)
    ensures !LeftBehind(Migrated(s, m))
  {
    var after := Migrated(s, m);
    forall id | id in s.items ensures !Eligible(s.items, after.valuations, after.journal.value, id) {
      if id in Chosen(s) {
        assert Complete(s.items, id);
        var v := m.valuationOf[id];
        assert v in after.valuations && after.valuations[v].item == id;
      } else {
        NeverBecomesEligible(s, m, id);
      }
    }
  }

  lemma InvalidCheck(s: Store, m: Match)
    requires Assigns(m, Chosen(s), s.valuations)
    ensures InvalidCreated(Migrated(s, m)) <==>
              exists id :: id in HeldEntries(s) && NotCurrent(s.valuations, HeldEntries(s)[id].valuation)
  {
    var after := Migrated(s, m);
    var j, held := after.journal.value, HeldEntries(s);
    assert forall v :: v in s.valuations ==> after.valuations[v] == s.valuations[v];
    if id :| id in j && NotCurrent(after.valuations, j[id].valuation) {
      var v := j[id].valuation.value;
      assert v !in m.itemOf;
      assert id in held && held[id] == j[id];
    }
    if id :| id in held && NotCurrent(s.valuations, held[id].valuation) {
      assert j[id] == held[id];
    }
  }

  /** The three postconditions together raise exactly over a stale journal, so never from a fresh one. */
  lemma PostconditionsAreExact(s: Store, m: Match)
    requires Assigns(m, Chosen(s), s.valuations)
    ensures var after := Migrated(s, m);
            (CountMismatch(after) || LeftBehind(after) || InvalidCreated(after)) <==> StaleJournal(s)
    ensures s.journal.None? ==> !StaleJournal(s)
  {
    CountCheck(s, m);
    NothingLeftBehind(s, m);
    InvalidCheck(s, m);
  }

  /** An entry points at a valuation that is superseded or deleted: the journal of a run whose copy was edited since. */
  function EditedSince(item: Id, v: Id, i: Item): Store
    requires Complete(map[item := i], item)
  {
    Store(map[item := i], map[v := NewValuation(item, i).(isDeleted := true)],
          Some(map[item := Entry(i.money, Some(v))]), true)
  }

  /** The postconditions do raise: over a journal whose valuation was deleted meanwhile, with nothing left to copy. */
  lemma StaleJournalTripsTheCheck(item: Id, v: Id, i: Item)
    requires Complete(map[item := i], item) && !Offends(i)
    ensures var s := EditedSince(item, v, i);
            && !PreflightFails(s.items) && Assigns(Match(map[], map[]), Chosen(s), s.valuations)
            && InvalidCreated(Migrated(s, Match(map[], map[])))
  {
    var s := EditedSince(item, v, i);
    assert s.valuations[v].item == item;
    assert HasValuation(s.valuations, item);
    assert Chosen(s) == {};
    assert HeldEntries(s)[item].valuation == Some(v);
    InvalidCheck(s, Match(map[], map[]));
  }

  datatype Outcome = Refused | Failed | Committed(m: Match) | Done

  /** `_assert_postconditions`: one of the three counts is wrong. */
  predicate PostconditionsFail(s: Store)
    requires s.journal.Some?
  {
    CountMismatch(s) || LeftBehind(s) || InvalidCreated(s)
  }

  /** What the copy leaves, and whether the postconditions let it stand, told from the store it started from. */
  lemma UpgradeOutcome(s: Store, m: Match)
    requires Assigns(m, Chosen(s), s.valuations)
    ensures PostconditionsFail(Migrated(s, m)) <==> StaleJournal(s)
  {
    PostconditionsAreExact(s, m);
  }

  // ----- downgrade and the two column revisions -----

  function PutMoney(e: Entry, i: Item): Item {
    i.(money := e.money)
  }

  function CreatedIds(journal: map<Id, Entry>): set<Id> {
    set id | id in journal && journal[id].valuation.Some? :: journal[id].valuation.value
  }

  function Unmigrated(s: Store): Store
    requires s.journal.Some?
  {
    s.(items := Restore(s.items, s.journal.value, PutMoney), valuations := s.valuations - CreatedIds(s.journal.value),
       journal := None)
  }

  /** Some valuation that stays points at one that would go. */
  predicate DeleteBlocked(s: Store)
    requires s.journal.Some?
  {
    exists v :: v in s.valuations && v !in CreatedIds(s.journal.value)
             && s.valuations[v].supersededBy.Some? && s.valuations[v].supersededBy.value in CreatedIds(s.journal.value)
             && s.valuations[v].supersededBy.value in s.valuations
  }

  function Blanked(items: map<Id, Item>): map<Id, Item> {
    map id | id in items :: items[id].(money := BLANK)
  }

  function ColumnsDropped(s: Store): Store {
    s.(items := Blanked(s.items), hasColumns := false)
  }

  function ColumnsAdded(s: Store): Store {
    s.(items := Blanked(s.items), hasColumns := true)
  }

  class ItemStore {
    var items: map<Id, Item>
    var valuations: map<Id, Valuation>
    var journal: Option<map<Id, Entry>>
    var hasColumns: bool

    ghost function View(): Store
      reads this
    {
      Store(items, valuations, journal, hasColumns)
    }

    /** The copy over the stored tables, with the journal seeded from the items. */
    method CopyAndStamp(ids: seq<Id>) returns (m: Match)
      requires Fresh(ids, valuations) && |ids| >= |Chosen(View())|
      modifies this`valuations, this`journal
      ensures Assigns(m, Chosen(old(View())), old(valuations))
      ensures View() == Migrated(old(View()), m)
    {
      var before := Store(items, valuations, journal, hasColumns);
      ChosenAreComplete(before);
      var copied, stamped;
      copied, stamped, m := CopyRows(items, valuations, Seeded(before), ids, Chosen(before));
      assert Migrated(before, m) == Store(items, copied, Some(stamped), hasColumns);
      valuations, journal := copied, Some(stamped);
    }

    method AssertPostconditions() returns (failed: bool)
      requires journal.Some?
      ensures failed == PostconditionsFail(View())
    {
      failed := PostconditionsFail(Store(items, valuations, journal, hasColumns));
    }

    method Rollback(before: Store)
      requires items == before.items && hasColumns == before.hasColumns
      modifies this`valuations, this`journal
      ensures View() == before
    {
      valuations, journal := before.valuations, before.journal;
    }

    /** 5420acc6a7b3: preflight, journal, copy loop, postconditions; a raise rolls everything back. */
    method Upgrade(ids: seq<Id>) returns (outcome: Outcome)
      requires Fresh(ids, valuations) && |ids| >= |Chosen(View())|
      modifies this`valuations, this`journal
      ensures !hasColumns ==> outcome == Failed
      ensures hasColumns && PreflightFails(items) ==> outcome == Refused
      ensures hasColumns && !PreflightFails(items) && StaleJournal(old(View())) ==> outcome == Failed
      ensures hasColumns && !PreflightFails(items) && !StaleJournal(old(View())) ==>
                outcome.Committed? && Assigns(outcome.m, Chosen(old(View())), old(valuations))
      ensures View() == if outcome.Committed? then Migrated(old(View()), outcome.m) else old(View())
    {
      if !hasColumns {
        return Failed;
      }
      if PreflightFails(items) {
        return Refused;
      }
      var before := Store(items, valuations, journal, hasColumns);
      var m := CopyAndStamp(ids);
      UpgradeOutcome(before, m);
      var failed := AssertPostconditions();
      if failed {
        Rollback(before);
        return Failed;
      }
      outcome := Committed(m);
    }

    /** Its downgrade; a missing column or journal, or the foreign key, raises. */
    method Downgrade() returns (outcome: Outcome)
      modifies this`items, this`valuations, this`journal
      ensures outcome == Done <==> hasColumns && old(journal).Some? && !DeleteBlocked(old(View()))
      ensures View() == if outcome == Done then Unmigrated(old(View())) else old(View())
    {
      if !hasColumns || journal.None? {
        return Failed;
      }
      if DeleteBlocked(Store(items, valuations, journal, hasColumns)) {
        return Failed;
      }
      items := Restore(items, journal.value, PutMoney);
      valuations := valuations - CreatedIds(journal.value);
      journal := None;
      outcome := Done;
    }

    /** be9dfe42a035: it reads the journal's size, then drops the columns; the journal stays. */
    method DropColumns() returns (outcome: Outcome)
      modifies this`items, this`hasColumns
      ensures outcome == Done <==> old(journal).Some? && old(hasColumns)
      ensures View() == if outcome == Done then ColumnsDropped(old(View())) else old(View())
    {
      if journal.None? || !hasColumns {
        return Failed;
      }
      items := Blanked(items);
      hasColumns := false;
      outcome := Done;
    }

    method AddColumns() returns (outcome: Outcome)
      modifies this`items, this`hasColumns
      ensures outcome == Done <==> !old(hasColumns)
      ensures View() == if outcome == Done then ColumnsAdded(old(View())) else old(View())
    {
      if hasColumns {
        return Failed;
      }
      items := Blanked(items);
      hasColumns := true;
      outcome := Done;
    }
  }

  // ----- what the copy guarantees -----

  ghost predicate OneCurrentPerItem(valuations: map<Id, Valuation>) {
    forall v, u :: && v in valuations && u in valuations && v != u
                   && !valuations[v].superseded && !valuations[v].isDeleted
                   && !valuations[u].superseded && !valuations[u].isDeleted ==>
      valuations[v].item != valuations[u].item
  }

  /**
   * Which items the copy selects, over any store: live, priced in a currency, nowhere negative, with a
   * creator, no valuation yet and none journaled.
   */
  lemma ChosenMeans(s: Store, id: Id)
    ensures id in Chosen(s) <==>
              && id in s.items && !s.items[id].facts.isDeleted && s.items[id].facts.createdBy.Some?
              && s.items[id].money.currency.Some? && (s.items[id].money.value.Some? || s.items[id].money.cost.Some?)
              && (s.items[id].money.value.Some? ==> s.items[id].money.value.value >= 0)
              && (s.items[id].money.cost.Some? ==> s.items[id].money.cost.value >= 0)
              && (s.journal.Some? && id in s.journal.value ==> s.journal.value[id].valuation.None?)
              && (forall v :: v in s.valuations ==> s.valuations[v].item != id)
  {
  }

  /**
   * Behind the preflight, from a fresh journal, the chosen items are the live ones with an amount and no
   * valuation yet.
   */
  lemma ChosenItems(s: Store, id: Id)
    requires !PreflightFails(s.items) && s.journal.None?
    ensures id in Chosen(s) <==>
              id in s.items && !s.items[id].facts.isDeleted && HasAmount(s.items[id].money)
                  && !HasValuation(s.valuations, id)
  {
    if id in s.items {
      assert !Offends(s.items[id]);
    }
  }

  lemma ChosenAreFree(s: Store)
    ensures forall i :: i in Chosen(s) ==> !HasValuation(s.valuations, i)
  {
  }

  lemma NewRowsAreUnique(items: map<Id, Item>, before: map<Id, Valuation>, m: Match, chosen: set<Id>)
    requires Assigns(m, chosen, before) && OneCurrentPerItem(before)
    requires forall i :: i in chosen ==> !HasValuation(before, i)
    ensures OneCurrentPerItem(before + NewRows(items, m.itemOf))
  {
    var after := before + NewRows(items, m.itemOf);
    forall v | v in after && v !in before
      ensures v in m.itemOf && after[v].item == m.itemOf[v] && !HasValuation(before, m.itemOf[v])
    {
    }
  }

  /** The valuation is the item's current one, first of its chain, and holds its money, workspace and creator. */
  predicate Holds(v: Valuation, id: Id, i: Item) {
    && v.item == id && !v.superseded && v.supersededBy.None? && !v.isDeleted
    && v.price == i.money.value && v.cost == i.money.cost && Some(v.currency) == i.money.currency
    && v.workspace == i.facts.workspace && Some(v.createdBy) == i.facts.createdBy
  }

  /**
   * The copy touches no existing valuation, adds one current valuation for exactly the chosen items, and
   * keeps the partial unique index.
   */
  lemma CopyIsSound(s: Store, m: Match)
    requires Assigns(m, Chosen(s), s.valuations) && OneCurrentPerItem(s.valuations)
    ensures var after := Migrated(s, m).valuations;
            && (forall v :: v in s.valuations ==> v in after && after[v] == s.valuations[v])
            && (forall id :: id in Chosen(s) ==>
                m.valuationOf[id] in after && Holds(after[m.valuationOf[id]], id, s.items[id]))
            && (forall v :: v in after && v !in s.valuations ==> after[v].item in Chosen(s))
            && OneCurrentPerItem(after)
  {
    var after := Migrated(s, m).valuations;
    forall id | id in Chosen(s) ensures m.valuationOf[id] in after && Holds(after[m.valuationOf[id]], id, s.items[id]) {
      assert Complete(s.items, id);
    }
    ChosenAreFree(s);
    NewRowsAreUnique(s.items, s.valuations, m, Chosen(s));
  }

  // ----- the lossy drop is reversible -----

  /** Item traffic while the columns are gone: other columns may change, money cannot be written. */
  datatype ItemWrite = PutFacts(id: Id, facts: Facts) | RemoveItem(id: Id)

  function ApplyItem(w: ItemWrite, items: map<Id, Item>): map<Id, Item> {
    match w
    case PutFacts(id, facts) => items[id := Item(if id in items then items[id].money else BLANK, facts)]
    case RemoveItem(id) => items - {id}
  }

  function RunItems(ws: seq<ItemWrite>, items: map<Id, Item>): map<Id, Item> {
    if ws == [] then items else RunItems(ws[1..], ApplyItem(ws[0], items))
  }

  ghost predicate KeepsItems(ws: seq<ItemWrite>, ids: set<Id>) {
    forall k :: 0 <= k < |ws| && ws[k].RemoveItem? ==> ws[k].id !in ids
  }

  /** `blank` is `full` without its money, and the journal holds exactly the money that is missing. */
  ghost predicate Stripped(full: map<Id, Item>, blank: map<Id, Item>, journal: map<Id, Entry>) {
    && blank == Blanked(full)
    && journal.Keys <= full.Keys
    && (forall id :: id in full ==> full[id].money == if id in journal then journal[id].money else BLANK)
  }

  lemma StripStep(w: ItemWrite, full: map<Id, Item>, blank: map<Id, Item>, journal: map<Id, Entry>)
    requires Stripped(full, blank, journal) && (w.RemoveItem? ==> w.id !in journal)
    ensures Stripped(ApplyItem(w, full), ApplyItem(w, blank), journal)
  {
    assert ApplyItem(w, blank) == Blanked(ApplyItem(w, full));
  }

  lemma {:induction false} ItemsCommute(ws: seq<ItemWrite>, full: map<Id, Item>, blank: map<Id, Item>,
                                        journal: map<Id, Entry>)
    requires Stripped(full, blank, journal) && KeepsItems(ws, journal.Keys)
    ensures Restore(Blanked(RunItems(ws, blank)), journal, PutMoney) == RunItems(ws, full)
  {
    if ws == [] {
      assert Restore(Blanked(blank), journal, PutMoney) == full;
    } else {
      assert ws[0].RemoveItem? ==> ws[0].id !in journal;
      StripStep(ws[0], full, blank, journal);
      assert KeepsItems(ws[1..], journal.Keys);
      ItemsCommute(ws[1..], ApplyItem(ws[0], full), ApplyItem(ws[0], blank), journal);
    }
  }

  lemma OutsideStep(w: Write<Valuation>, a: map<Id, Valuation>, b: map<Id, Valuation>, ids: set<Id>)
    requires a - ids == b - ids
    ensures Apply(w, a) - ids == Apply(w, b) - ids
  {
    var x, y := Apply(w, a) - ids, Apply(w, b) - ids;
    forall id | id in x ensures id in y && x[id] == y[id] {
      if id != w.id {
        assert id in a - ids && (a - ids)[id] == a[id];
      }
    }
    forall id | id in y ensures id in x {
      if id != w.id {
        assert id in b - ids;
      }
    }
  }

  /** Tables that agree outside a set of ids still do after the same writes, whatever those write. */
  lemma {:induction false} RunOutside(ws: seq<Write<Valuation>>, a: map<Id, Valuation>, b: map<Id, Valuation>,
                                      ids: set<Id>)
    requires a - ids == b - ids
    ensures Run(ws, a) - ids == Run(ws, b) - ids
  {
    if ws != [] {
      OutsideStep(ws[0], a, b, ids);
      RunOutside(ws[1..], Apply(ws[0], a), Apply(ws[0], b), ids);
    }
  }

  /** Writes that avoid these ids bring none of them in. */
  lemma AvoidedStayOut(ws: seq<Write<Valuation>>, t: map<Id, Valuation>, ids: set<Id>)
    requires Avoids(ws, ids) && t.Keys !! ids
    ensures Run(ws, t) - ids == Run(ws, t)
  {
    RunKeeps(ws, t, ids);
  }

  function Traffic(s: Store, itemWrites: seq<ItemWrite>, valuationWrites: seq<Write<Valuation>>): Store {
    s.(items := RunItems(itemWrites, s.items), valuations := Run(valuationWrites, s.valuations))
  }

  lemma StampedCreates(seeded: map<Id, Entry>, m: Match)
    requires forall id :: id in seeded ==> seeded[id].valuation.None?
    requires m.valuationOf.Keys <= seeded.Keys
    requires forall i :: i in m.valuationOf ==> m.valuationOf[i] in m.itemOf
    requires forall v :: v in m.itemOf ==> m.itemOf[v] in m.valuationOf && m.valuationOf[m.itemOf[v]] == v
    ensures CreatedIds(Stamped(seeded, m.valuationOf)) == m.itemOf.Keys
  {
    var j := Stamped(seeded, m.valuationOf);
    forall v | v in m.itemOf ensures v in CreatedIds(j) {
      var id := m.itemOf[v];
      assert id in j && j[id].valuation == Some(v);
    }
  }

  /** The valuations the journal points at are exactly the ones the copy made. */
  lemma CreatedAreMatched(s: Store, m: Match)
    requires s.journal.None? && Assigns(m, Chosen(s), s.valuations)
    ensures CreatedIds(Migrated(s, m).journal.value) == m.itemOf.Keys
  {
    assert forall id :: id in Chosen(s) ==> id in Seeded(s);
    StampedCreates(Seeded(s), m);
  }

  /** The store on which the last downgrade of such a run starts. */
  function RoundTrip(s: Store, m: Match, itemWrites: seq<ItemWrite>, valuationWrites: seq<Write<Valuation>>): Store {
    ColumnsAdded(Traffic(ColumnsDropped(Migrated(s, m)), itemWrites, valuationWrites))
  }

  lemma JournalHoldsTheMoney(s: Store, m: Match)
    requires s.journal.None?
    ensures Migrated(s, m).journal.value.Keys == LegacyEntries(s.items).Keys
    ensures Stripped(s.items, Blanked(s.items), Migrated(s, m).journal.value)
  {
  }

  lemma AddedComeOff(before: map<Id, Valuation>, added: map<Id, Valuation>, ids: set<Id>)
    requires added.Keys <= ids && before.Keys !! ids
    ensures (before + added) - ids == before
  {
  }

  lemma ValuationsCommute(s: Store, m: Match, ws: seq<Write<Valuation>>)
    requires Assigns(m, Chosen(s), s.valuations)
    ensures Run(ws, Migrated(s, m).valuations) - m.itemOf.Keys == Run(ws, s.valuations) - m.itemOf.Keys
  {
    AddedComeOff(s.valuations, NewRows(s.items, m.itemOf), m.itemOf.Keys);
    RunOutside(ws, Migrated(s, m).valuations, s.valuations, m.itemOf.Keys);
  }

  /**
   * The journal makes a lossy drop reversible, whatever happened to the valuations meanwhile. Migrate the
   * money, drop its columns, let the application run, add the columns back and undo the migration: the items
   * hold their old money under whatever the application wrote beside it, and the valuations are those the same
   * traffic would have left, less the ones it wrote under the ids of copied valuations.
   */
  lemma MoneyComesBack(s: Store, m: Match, itemWrites: seq<ItemWrite>, valuationWrites: seq<Write<Valuation>>)
    requires s.journal.None? && s.hasColumns && Assigns(m, Chosen(s), s.valuations)
    requires KeepsItems(itemWrites, LegacyEntries(s.items).Keys)
    ensures Unmigrated(RoundTrip(s, m, itemWrites, valuationWrites)) ==
              Traffic(s, itemWrites, valuationWrites).(valuations := Run(valuationWrites, s.valuations) - m.itemOf.Keys)
  {
    JournalHoldsTheMoney(s, m);
    CreatedAreMatched(s, m);
    ItemsCommute(itemWrites, s.items, Blanked(s.items), Migrated(s, m).journal.value);
    ValuationsCommute(s, m, valuationWrites);
  }

  /** Traffic that leaves the copied valuations alone leaves no trace of the migration at all. */
  lemma DropIsReversible(s: Store, m: Match, itemWrites: seq<ItemWrite>, valuationWrites: seq<Write<Valuation>>)
    requires s.journal.None? && s.hasColumns && Assigns(m, Chosen(s), s.valuations)
    requires KeepsItems(itemWrites, LegacyEntries(s.items).Keys) && Avoids(valuationWrites, m.itemOf.Keys)
    ensures Unmigrated(RoundTrip(s, m, itemWrites, valuationWrites)) == Traffic(s, itemWrites, valuationWrites)
  {
    MoneyComesBack(s, m, itemWrites, valuationWrites);
    AvoidedStayOut(valuationWrites, s.valuations, m.itemOf.Keys);
  }

  /** The foreign key of `superseded_by_id`. */
  ghost predicate ReferencesResolve(valuations: map<Id, Valuation>) {
    forall v :: v in valuations && valuations[v].supersededBy.Some? ==> valuations[v].supersededBy.value in valuations
  }

  /** A valuation that is not a copied one names a copied one, still there, as its successor. */
  predicate NamesCopied(valuations: map<Id, Valuation>, copied: set<Id>) {
    exists v :: v in valuations && v !in copied && valuations[v].supersededBy.Some?
             && valuations[v].supersededBy.value in copied && valuations[v].supersededBy.value in valuations
  }

  /** When that last downgrade is accepted, for any traffic: the foreign key blocks it exactly over such a valuation. */
  lemma DropReversalIsAccepted(s: Store, m: Match, itemWrites: seq<ItemWrite>, valuationWrites: seq<Write<Valuation>>)
    requires s.journal.None? && Assigns(m, Chosen(s), s.valuations)
    ensures DeleteBlocked(RoundTrip(s, m, itemWrites, valuationWrites)) <==>
              NamesCopied(Run(valuationWrites, Migrated(s, m).valuations), m.itemOf.Keys)
  {
    CreatedAreMatched(s, m);
  }

  /** No write makes a valuation that was not copied name a copied one as its successor. */
  ghost predicate PointsOldToNew(ws: seq<Write<Valuation>>, copied: set<Id>) {
    forall k :: 0 <= k < |ws| && ws[k].Put? && ws[k].id !in copied && ws[k].row.supersededBy.Some? ==>
      ws[k].row.supersededBy.value !in copied
  }

  ghost predicate NoneNames(valuations: map<Id, Valuation>, copied: set<Id>) {
    forall v :: v in valuations && v !in copied && valuations[v].supersededBy.Some? ==>
      valuations[v].supersededBy.value !in copied
  }

  lemma {:induction false} NoneNamesLater(ws: seq<Write<Valuation>>, t: map<Id, Valuation>, copied: set<Id>)
    requires PointsOldToNew(ws, copied) && NoneNames(t, copied)
    ensures NoneNames(Run(ws, t), copied)
  {
    if ws != [] {
      var w := ws[0];
      assert w.Put? && w.id !in copied && w.row.supersededBy.Some? ==> w.row.supersededBy.value !in copied;
      NoneNamesLater(ws[1..], Apply(w, t), copied);
    }
  }

  lemma CopyNamesNone(s: Store, m: Match)
    requires Assigns(m, Chosen(s), s.valuations) && ReferencesResolve(s.valuations)
    ensures NoneNames(Migrated(s, m).valuations, m.itemOf.Keys)
  {
  }

  /**
   * The application's price writer closes the current valuation of an item and points it at the new one. Such
   * traffic, repricing of migrated items included, never blocks the downgrade, and the money comes back.
   */
  lemma RepricingNeverBlocks(s: Store, m: Match, itemWrites: seq<ItemWrite>, valuationWrites: seq<Write<Valuation>>)
    requires s.journal.None? && Assigns(m, Chosen(s), s.valuations) && ReferencesResolve(s.valuations)
    requires PointsOldToNew(valuationWrites, m.itemOf.Keys)
    ensures !DeleteBlocked(RoundTrip(s, m, itemWrites, valuationWrites))
  {
    CopyNamesNone(s, m);
    NoneNamesLater(valuationWrites, Migrated(s, m).valuations, m.itemOf.Keys);
    DropReversalIsAccepted(s, m, itemWrites, valuationWrites);
  }

  /** The two writes of one repricing: close the copied valuation, and add its successor. */
  function Repricing(copied: Id, closed: Valuation, added: Id, row: Valuation): seq<Write<Valuation>> {
    [Put(added, row), Put(copied, closed.(superseded := true, supersededBy := Some(added)))]
  }

  lemma RepricingPointsNew(copied: Id, closed: Valuation, added: Id, row: Valuation, ids: set<Id>)
    requires copied in ids && row.supersededBy.None?
    ensures PointsOldToNew(Repricing(copied, closed, added, row), ids)
  {
  }

  lemma OnlyTheNewOne(before: map<Id, Valuation>, ids: set<Id>, copied: Id, closed: Valuation, added: Id,
                      row: Valuation)
    requires before.Keys !! ids && copied in ids && added !in ids
    ensures before[added := row][copied := closed] - ids == before[added := row]
  {
  }

  lemma RepricedLeaves(before: map<Id, Valuation>, ids: set<Id>, copied: Id, closed: Valuation, added: Id,
                       row: Valuation)
    requires before.Keys !! ids && copied in ids && added !in ids
    ensures Run(Repricing(copied, closed, added, row), before) - ids == before[added := row]
  {
    var ws := Repricing(copied, closed, added, row);
    RunTwo(ws[0], ws[1], before);
    OnlyTheNewOne(before, ids, copied, ws[1].row, added, row);
  }

  /**
   * One repriced item: the downgrade goes through, the money is back, and of the valuations only the new one
   * is added.
   */
  lemma RepricedItemComesBack(s: Store, m: Match, copied: Id, added: Id, row: Valuation)
    requires s.journal.None? && s.hasColumns && Assigns(m, Chosen(s), s.valuations) && ReferencesResolve(s.valuations)
    requires copied in m.itemOf && copied in Migrated(s, m).valuations && added !in m.itemOf && row.supersededBy.None?
    ensures var trip := RoundTrip(s, m, [], Repricing(copied, Migrated(s, m).valuations[copied], added, row));
            && !DeleteBlocked(trip)
            && Unmigrated(trip) == s.(valuations := s.valuations[added := row])
  {
    var ws := Repricing(copied, Migrated(s, m).valuations[copied], added, row);
    var closed := Migrated(s, m).valuations[copied];
    RepricingPointsNew(copied, closed, added, row, m.itemOf.Keys);
    RepricingNeverBlocks(s, m, [], ws);
    MoneyComesBack(s, m, [], ws);
    RepricedLeaves(s.valuations, m.itemOf.Keys, copied, closed, added, row);
  }

  /** Without valuation traffic the foreign key that held before never blocks, so everything comes back. */
  lemma QuietDropComesBack(s: Store, m: Match, itemWrites: seq<ItemWrite>)
    requires s.journal.None? && s.hasColumns && Assigns(m, Chosen(s), s.valuations) && ReferencesResolve(s.valuations)
    requires KeepsItems(itemWrites, LegacyEntries(s.items).Keys)
    ensures !DeleteBlocked(RoundTrip(s, m, itemWrites, []))
    ensures Unmigrated(RoundTrip(s, m, itemWrites, [])) == Traffic(s, itemWrites, [])
  {
    RepricingNeverBlocks(s, m, itemWrites, []);
    DropIsReversible(s, m, itemWrites, []);
  }

  /**
   * The database also allows what that writer never does: a newer valuation that names a copied one as its
   * successor. One such row blocks the downgrade.
   */
  lemma SuccessorBlocksTheDrop(s: Store, m: Match, copied: Id, added: Id, row: Valuation)
    requires s.journal.None? && Assigns(m, Chosen(s), s.valuations) && copied in m.itemOf && added !in m.itemOf
    requires row.supersededBy == Some(copied)
    ensures DeleteBlocked(RoundTrip(s, m, [], [Put(added, row)]))
  {
    var ws := [Put(added, row)];
    assert m.itemOf[copied] in Chosen(s) && Complete(s.items, m.itemOf[copied]);
    var left := Migrated(s, m).valuations[added := row];
    RunOne(ws[0], Migrated(s, m).valuations);
    assert left[added].supersededBy == Some(copied) && copied in left;
    DropReversalIsAccepted(s, m, [], ws);
  }

  /** Without the journal the drop loses information: items with and without money become the same row. */
  lemma DropAloneIsLossy(restore: map<Id, Item> -> map<Id, Item>)
    ensures exists items: map<Id, Item> :: restore(Blanked(items)) != items
  {
    var facts := Facts("w", Some("u"), false, "");
    var rich := map["i" := Item(Money(Some(1), None, Some(Euro)), facts)];
    var poor := map["i" := Item(BLANK, facts)];
    assert rich["i"] != poor["i"];
    assert Blanked(rich) == Blanked(poor);
  }
}
