/** Unfinished product-sync payloads become absolute quantities: the rewriting statements of revision d8e4f1a2c6b7. */
module Payloads {
  import opened Relational

  datatype Json =
    | Null | Bool(b: bool) | Number(n: int) | Text(s: string)
    | Array(items: seq<Json>)
    | Object(fields: map<string, Json>)

  // ----- the jsonb operators the statements use, on two-step object paths -----

  /** `j -> key`; None is SQL NULL. */
  function Get(j: Json, key: string): Option<Json> {
    if j.Object? && key in j.fields then Some(j.fields[key]) else None
  }

  /** `j #> '{a,b}'`. */
  function GetPath(j: Json, a: string, b: string): Option<Json> {
    var inner := Get(j, a);
    if inner.None? then None else Get(inner.value, b)
  }

  /** `j #- '{a,b}'`. */
  function DeletePath(j: Json, a: string, b: string): Json {
    if GetPath(j, a, b).None? then j
    else Object(j.fields[a := Object(j.fields[a].fields - {b})])
  }

  /** `jsonb_set(j, '{a,b}', v, true)`. */
  function SetPath(j: Json, a: string, b: string, v: Json): Json {
    var inner := Get(j, a);
    if inner.None? || !inner.value.Object? then j
    else Object(j.fields[a := Object(inner.value.fields[b := v])])
  }

  function OrNull(j: Option<Json>): Json {
    if j.None? then Null else j.value
  }

  const INVENTORY := "inventory"
  const ADJUSTMENTS := "adjustments"
  const QUANTITIES := "quantities"

  /** One adjustment, its added quantity read as an absolute one. */
  function ToQuantity(adjustment: Json): Json {
    Object(map["location_id" := OrNull(Get(adjustment, "location_id")),
               "quantity" := OrNull(Get(adjustment, "quantity_to_add"))])
  }

  /** jsonb_agg over the elements, or an empty array when there are none. */
  function ToQuantities(adjustments: seq<Json>): (r: seq<Json>)
    ensures |r| == |adjustments| && forall i :: 0 <= i < |r| ==> r[i] == ToQuantity(adjustments[i])
  {
    seq(|adjustments|, i requires 0 <= i < |adjustments| => ToQuantity(adjustments[i]))
  }

  datatype Status = PendingSync | Processing | Finished(name: string)
  datatype Stage = InventorySet | OtherStage(name: string)
  datatype Mode = Add | Set

  datatype SyncItem = SyncItem(status: Status, stage: Stage, payload: Json, mode: Mode)

  predicate Unfinished(r: SyncItem) {
    !r.status.Finished? && r.stage != InventorySet
  }

  function Adjustments(r: SyncItem): Option<Json> {
    GetPath(r.payload, INVENTORY, ADJUSTMENTS)
  }

  function Quantities(r: SyncItem): Option<Json> {
    GetPath(r.payload, INVENTORY, QUANTITIES)
  }

  // ----- the three statements -----

  function Translate(r: SyncItem): SyncItem {
    if Unfinished(r) && Adjustments(r).Some? && Adjustments(r).value.Array? && Quantities(r).None? then
      r.(payload := SetPath(DeletePath(r.payload, INVENTORY, ADJUSTMENTS), INVENTORY, QUANTITIES,
                            Array(ToQuantities(Adjustments(r).value.items))))
    else r
  }

  function Discard(r: SyncItem): SyncItem {
    if Unfinished(r) && Quantities(r).Some? && Adjustments(r).Some? then
      r.(payload := DeletePath(r.payload, INVENTORY, ADJUSTMENTS))
    else r
  }

  function SetMode(r: SyncItem): SyncItem {
    if Unfinished(r) then r.(mode := Set) else r
  }

  // ----- what they mean together -----

  /** The inventory object after the revision, from the one before it. */
  function CanonicalInventory(fields: map<string, Json>): map<string, Json> {
    if QUANTITIES in fields then fields - {ADJUSTMENTS}
    else if ADJUSTMENTS in fields && fields[ADJUSTMENTS].Array? then
      (fields - {ADJUSTMENTS})[QUANTITIES := Array(ToQuantities(fields[ADJUSTMENTS].items))]
    else fields
  }

  function Canonical(r: SyncItem): SyncItem {
    if !Unfinished(r) then r
    else
      var inventory := Get(r.payload, INVENTORY);
      var payload := if inventory.Some? && inventory.value.Object?
                     then Object(r.payload.fields[INVENTORY := Object(CanonicalInventory(inventory.value.fields))])
                     else r.payload;
      r.(payload := payload, mode := Set)
  }

  lemma DistinctKeys()
    ensures ADJUSTMENTS != QUANTITIES
  {
    assert ADJUSTMENTS[0] != QUANTITIES[0];
  }

  function WithInventory(r: SyncItem, fields: map<string, Json>): SyncItem
    requires r.payload.Object?
  {
    r.(payload := Object(r.payload.fields[INVENTORY := Object(fields)]))
  }

  lemma TranslateFields(r: SyncItem, fields: map<string, Json>)
    requires Unfinished(r) && Get(r.payload, INVENTORY) == Some(Object(fields))
    ensures Translate(r) == if ADJUSTMENTS in fields && fields[ADJUSTMENTS].Array? && QUANTITIES !in fields
                            then WithInventory(r, CanonicalInventory(fields)) else r
  {
    if ADJUSTMENTS in fields && fields[ADJUSTMENTS].Array? && QUANTITIES !in fields {
      var trimmed := DeletePath(r.payload, INVENTORY, ADJUSTMENTS);
      assert trimmed == Object(r.payload.fields[INVENTORY := Object(fields - {ADJUSTMENTS})]);
      var after := SetPath(trimmed, INVENTORY, QUANTITIES, Array(ToQuantities(fields[ADJUSTMENTS].items)));
      assert after.fields == r.payload.fields[INVENTORY := Object(CanonicalInventory(fields))];
    }
  }

  lemma DiscardFields(r: SyncItem)
    requires Unfinished(r) && Get(r.payload, INVENTORY).Some? && Get(r.payload, INVENTORY).value.Object?
    ensures var fields := r.payload.fields[INVENTORY].fields;
            Discard(r) == if QUANTITIES in fields && ADJUSTMENTS in fields
                          then WithInventory(r, fields - {ADJUSTMENTS}) else r
  {
  }

  /** The three statements in order are the one rewrite, for every payload. */
  lemma StatementsAreCanonical(r: SyncItem)
    ensures SetMode(Discard(Translate(r))) == Canonical(r)
  {
    DistinctKeys();
    var inventory := Get(r.payload, INVENTORY);
    if Unfinished(r) && inventory.Some? && inventory.value.Object? {
      var fields := inventory.value.fields;
      var rest := r.payload.fields;
      TranslateFields(r, fields);
      DiscardFields(Translate(r));
      assert rest[INVENTORY := inventory.value] == rest;
      if QUANTITIES in fields && ADJUSTMENTS !in fields {
        assert fields - {ADJUSTMENTS} == fields;
      }
    }
  }

  /**
   * The payload contract. An unfinished row whose adjustments were an array has none afterwards and has
   * quantities: its own if it had any, otherwise the adjustments translated one by one in order. Nothing
   * else in the payload moves, and finished rows do not change at all.
   */
  lemma ContractHolds(r: SyncItem)
    ensures !Unfinished(r) ==> Canonical(r) == r
    ensures Unfinished(r) && Adjustments(r).Some? && Adjustments(r).value.Array? ==>
              && Adjustments(Canonical(r)).None?
              && Quantities(Canonical(r)) ==
                   (if Quantities(r).Some? then Quantities(r)
                    else Some(Array(ToQuantities(Adjustments(r).value.items))))
    ensures forall key :: key != INVENTORY ==> Get(Canonical(r).payload, key) == Get(r.payload, key)
    ensures forall key :: key != ADJUSTMENTS && key != QUANTITIES ==>
              GetPath(Canonical(r).payload, INVENTORY, key) == GetPath(r.payload, INVENTORY, key)
    ensures Unfinished(r) ==> Canonical(r).mode == Set
  {
    DistinctKeys();
  }

  /** A field of a JSON object, or null. */
  function FieldOf(j: Json, key: string): Json {
    if j.Object? && key in j.fields then j.fields[key] else Null
  }

  lemma QuantityFields(a: Json)
    ensures ToQuantity(a).Object? && ToQuantity(a).fields.Keys == {"location_id", "quantity"}
    ensures ToQuantity(a).fields["location_id"] == FieldOf(a, "location_id")
    ensures ToQuantity(a).fields["quantity"] == FieldOf(a, "quantity_to_add")
  {
    assert "location_id"[0] != "quantity"[0];
  }

  /** Each translated quantity names the location of its adjustment and takes the quantity that was to be added. */
  lemma TranslatedInOrder(r: SyncItem, i: nat)
    requires r.status == PendingSync || r.status == Processing
    requires r.stage != InventorySet && Adjustments(r).Some? && Adjustments(r).value.Array? && Quantities(r).None?
    requires i < |Adjustments(r).value.items|
    ensures var q, a := Quantities(Canonical(r)), Adjustments(r).value.items[i];
            && q.Some? && q.value.Array? && |q.value.items| == |Adjustments(r).value.items|
            && q.value.items[i].Object? && q.value.items[i].fields.Keys == {"location_id", "quantity"}
            && FieldOf(q.value.items[i], "location_id") == FieldOf(a, "location_id")
            && FieldOf(q.value.items[i], "quantity") == FieldOf(a, "quantity_to_add")
  {
    ContractHolds(r);
    QuantityFields(Adjustments(r).value.items[i]);
  }

  /** Only pending and processing rows that did not get as far as the inventory change, in payload or mode. */
  lemma OthersUntouched(r: SyncItem)
    ensures r.status.Finished? || r.stage == InventorySet ==> Canonical(r) == r
    ensures !(r.status.Finished? || r.stage == InventorySet) ==> Canonical(r).mode == Set
    ensures Canonical(r).status == r.status && Canonical(r).stage == r.stage
  {
  }

  /**
   * Which unfinished rows end up without adjustments: all but those whose adjustments are not an array and
   * which have no quantities.
   */
  lemma AdjustmentsGone(r: SyncItem)
    requires Unfinished(r)
    ensures Adjustments(Canonical(r)).None? <==>
              Adjustments(r).None? || Adjustments(r).value.Array? || Quantities(r).Some?
  {
    DistinctKeys();
  }

  /** Running the revision again changes nothing. */
  lemma CanonicalIsIdempotent(r: SyncItem)
    ensures Canonical(Canonical(r)) == Canonical(r)
  {
    DistinctKeys();
    var inventory := Get(r.payload, INVENTORY);
    if Unfinished(r) && inventory.Some? && inventory.value.Object? {
      var fields := CanonicalInventory(inventory.value.fields);
      assert CanonicalInventory(fields) == fields;
      var once := Canonical(r).payload.fields;
      assert once[INVENTORY := Object(fields)] == once;
    }
  }

  class SyncTable {
    var rows: map<Id, SyncItem>

    method Upgrade()
      modifies this
      ensures rows == map id | id in old(rows) :: Canonical(old(rows)[id])
    {
      rows := map id | id in rows :: Translate(rows[id]);
      rows := map id | id in rows :: Discard(rows[id]);
      rows := map id | id in rows :: SetMode(rows[id]);
      forall id | id in old(rows) ensures rows[id] == Canonical(old(rows)[id]) {
        StatementsAreCanonical(old(rows)[id]);
      }
    }
  }
}
