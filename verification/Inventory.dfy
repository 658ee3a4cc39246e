/** The inventory table: upsert by case-folded ARM id, and the paged listing. */
module Inventory {
  import opened Prelude
  import opened Text
  import opened Events
  import opened ArmReferences
  import opened Paging

  datatype AzureItem = AzureItem(
    armId: string,
    subscription: Id,
    name: string,
    resourceType: string,
    resourceGroup: string,
    properties: Json)

  datatype Resource = Resource(
    tenant: Id,
    subscription: Id,
    azureId: string,
    normalizedId: string,
    resourceType: string,
    name: string,
    resourceGroup: string,
    properties: Json,
    lastSeenAt: nat,
    state: string,
    version: nat)

  const ACTIVE := "active"

  // Rows by primary key.
  type Resources = map<Id, Resource>

  ghost predicate RowsOk(rows: Resources) {
    && (forall a, b | a in rows && b in rows ::
          rows[a].tenant == rows[b].tenant && rows[a].normalizedId == rows[b].normalizedId ==> a == b)
    && (forall a | a in rows :: rows[a].normalizedId == Lower(rows[a].azureId))
  }

  predicate IsRowOf(rows: Resources, id: Id, tenant: Id, armId: string) {
    id in rows && rows[id].tenant == tenant && rows[id].normalizedId == Lower(armId)
  }

  // The row of an item as Azure last reported it.
  function Observed(row: Resource, item: AzureItem, now: nat): Resource {
    row.(azureId := item.armId, normalizedId := Lower(item.armId), resourceType := Lower(item.resourceType),
         name := item.name, resourceGroup := item.resourceGroup, properties := item.properties,
         lastSeenAt := now, state := ACTIVE)
  }

  // The row says what Azure reported.
  predicate Shows(row: Resource, item: AzureItem) {
    && row.azureId == item.armId && SameUpToCase(row.normalizedId, item.armId)
    && row.name == item.name && SameUpToCase(row.resourceType, item.resourceType)
    && row.resourceGroup == item.resourceGroup && row.properties == item.properties && row.state == "active"
  }

  lemma ObservedShows(row: Resource, item: AzureItem, now: nat)
    ensures Shows(Observed(row, item, now), item)
  {
    LowerMeans(item.armId);
    LowerMeans(item.resourceType);
    CaseIsSymmetric(item.armId, Lower(item.armId));
    CaseIsSymmetric(item.resourceType, Lower(item.resourceType));
  }

  // Every row keeps its id, tenant, normalised ARM id and subscription for ever.
  ghost predicate RowsStable(before: Resources, after: Resources) {
    forall a | a in before ::
      && a in after && after[a].tenant == before[a].tenant
      && after[a].normalizedId == before[a].normalizedId && after[a].subscription == before[a].subscription
      && after[a].version >= before[a].version
  }

  lemma MergeKeepsRows(rows: Resources, a: Id, item: AzureItem, now: nat)
    requires RowsOk(rows) && a in rows && rows[a].normalizedId == Lower(item.armId)
    ensures
      var after := rows[a := Observed(rows[a], item, now).(version := rows[a].version + 1)];
      RowsOk(after) && RowsStable(rows, after)
  {
  }

  function NewRow(tenant: Id, subscription: Id, item: AzureItem, now: nat): Resource {
    Resource(tenant, subscription, item.armId, Lower(item.armId), Lower(item.resourceType), item.name,
             item.resourceGroup, item.properties, now, ACTIVE, 1)
  }

  lemma InsertKeepsRows(rows: Resources, id: Id, tenant: Id, subscription: Id, item: AzureItem, now: nat)
    requires RowsOk(rows) && id !in rows && forall a | a in rows :: !IsRowOf(rows, a, tenant, item.armId)
    ensures
      var after := rows[id := NewRow(tenant, subscription, item, now)];
      RowsOk(after) && RowsStable(rows, after)
  {
  }

  // The table after an item has been stored in row `id`.
  function StoredRows(rows: Resources, id: Id, tenant: Id, subscription: Id, item: AzureItem, now: nat): Resources {
    if id in rows then rows[id := Observed(rows[id], item, now).(version := rows[id].version + 1)]
    else rows[id := NewRow(tenant, subscription, item, now)]
  }

  class Repository {
    var resources: Resources

    constructor ()
      ensures Valid() && resources == map[]
    {
      resources := map[];
    }

    ghost predicate Valid()
      reads this
    {
      RowsOk(resources)
    }

    // `newId` is the random id a new row would get.  Spellings of one ARM id that differ in case
    // share one row, whose id never changes; `changed` compares every observed field, the time of
    // observation included.
    method UpsertResource(tenant: Id, subscription: Id, item: AzureItem, newId: Id, now: nat)
      returns (id: Id, changed: bool)
      requires Valid() && newId !in resources
      modifies this`resources
      ensures Valid() && RowsStable(old(resources), resources)
      ensures IsRowOf(resources, id, tenant, item.armId)
      ensures forall a | IsRowOf(old(resources), a, tenant, item.armId) :: id == a
      ensures id !in old(resources) ==> id == newId && changed
      ensures resources == StoredRows(old(resources), id, tenant, subscription, item, now)
      ensures resources.Keys == old(resources).Keys + {id}
      ensures forall a | a in old(resources) && a != id :: resources[a] == old(resources)[a]
      ensures Shows(resources[id], item) && resources[id].lastSeenAt == now && resources[id].tenant == tenant
      ensures id in old(resources) ==>
        && resources[id].subscription == old(resources)[id].subscription
        && resources[id].version == old(resources)[id].version + 1
      ensures id !in old(resources) ==> resources[id].subscription == subscription && resources[id].version == 1
      ensures id in old(resources) ==> (changed <==> Observed(old(resources)[id], item, now) != old(resources)[id])
    {
      ObservedShows(NewRow(tenant, subscription, item, now), item, now);
      var found := FindByArmId(tenant, item.armId);
      if found.Some? {
        id := found.value;
        MergeKeepsRows(resources, id, item, now);
        ObservedShows(resources[id], item, now);
        var row;
        row, changed := Merge(resources[id], item, now);
        row := row.(version := row.version + 1);
        resources := resources[id := row];
      } else {
        InsertKeepsRows(resources, newId, tenant, subscription, item, now);
        id := newId;
        changed := true;
        resources := resources[id := NewRow(tenant, subscription, item, now)];
      }
    }

    method FindByArmId(tenant: Id, armId: string) returns (found: Option<Id>)
      requires Valid()
      ensures found.None? ==> forall a | a in resources :: !IsRowOf(resources, a, tenant, armId)
      ensures found.Some? ==> IsRowOf(resources, found.value, tenant, armId)
      ensures found.Some? ==> forall a | a in resources && IsRowOf(resources, a, tenant, armId) :: a == found.value
    {
      if exists a :: a in resources && IsRowOf(resources, a, tenant, armId) {
        var a :| a in resources && IsRowOf(resources, a, tenant, armId);
        found := Some(a);
      } else {
        found := None;
      }
    }

    // Sets the fields that differ, one by one.
    method Merge(row: Resource, item: AzureItem, now: nat) returns (merged: Resource, changed: bool)
      ensures merged == Observed(row, item, now)
      ensures changed <==> merged != row
    {
      merged, changed := row, false;
      if row.azureId != item.armId {
        changed, merged := true, merged.(azureId := item.armId);
      }
      if row.normalizedId != Lower(item.armId) {
        changed, merged := true, merged.(normalizedId := Lower(item.armId));
      }
      if row.resourceType != Lower(item.resourceType) {
        changed, merged := true, merged.(resourceType := Lower(item.resourceType));
      }
      if row.name != item.name {
        changed, merged := true, merged.(name := item.name);
      }
      if row.resourceGroup != item.resourceGroup {
        changed, merged := true, merged.(resourceGroup := item.resourceGroup);
      }
      if row.properties != item.properties {
        changed, merged := true, merged.(properties := item.properties);
      }
      if row.lastSeenAt != now {
        changed, merged := true, merged.(lastSeenAt := now);
      }
      if row.state != ACTIVE {
        changed, merged := true, merged.(state := ACTIVE);
      }
    }

    // `wanted` stands for the conjunction of the optional filters.
    method ListResources(tenant: Id, wanted: Resource -> bool, cursor: Option<Id>, limit: nat) returns (page: Page)
      requires limit >= 1
      ensures IsPage(page, MatchingIds(resources, tenant, wanted), cursor, limit)
      ensures page.next.Some? ==> page.items != [] && page.next.value == Last(page.items)
      ensures forall a | a in page.items ::
                a in resources && resources[a].tenant == tenant && wanted(resources[a])
      ensures forall a | a in resources && resources[a].tenant == tenant && wanted(resources[a])
                         && (cursor.None? || cursor.value < a) ::
                a in page.items || (page.next.Some? && page.next.value < a)
    {
      var visible := set a | a in resources && resources[a].tenant == tenant && wanted(resources[a])
                             && (cursor.None? || cursor.value < a);
      var rows := FirstInOrder(visible, limit + 1);
      ghost var matching := MatchingIds(resources, tenant, wanted);
      assert forall a: Id :: a in visible <==> Visible(matching, cursor, a);
      var next: Option<Id> := None;
      if |rows| > limit {
        assert rows[limit] in rows;
        next := Some(rows[limit - 1]);
        assert Visible(matching, cursor, rows[limit]) && next.value < rows[limit];
        ghost var all := rows;
        rows := rows[..limit];
        forall a: Id | Visible(matching, cursor, a) && a <= next.value ensures a in rows {
          assert a in all;
          var k :| 0 <= k < |all| && all[k] == a;
          assert k < limit;
          assert rows[k] == a;
        }
      }
      page := Page(rows, next);
      forall a | a in page.items ensures a in matching {
        assert Visible(matching, cursor, a);
      }
      forall a: Id | a in visible ensures a in page.items || (page.next.Some? && page.next.value < a) {
        assert Visible(matching, cursor, a);
      }
    }
  }

  function MatchingIds(rows: Resources, tenant: Id, wanted: Resource -> bool): set<Id> {
    set a | a in rows && rows[a].tenant == tenant && wanted(rows[a])
  }

  predicate Above(rows: seq<Id>, a: Id) {
    forall b | b in rows :: b < a
  }

  // ORDER BY id LIMIT count: the `count` smallest ids, in order.
  method FirstInOrder(ids: set<Id>, count: nat) returns (rows: seq<Id>)
    ensures Increasing(rows) && |rows| <= count
    ensures forall a | a in rows :: a in ids
    ensures forall a | a in ids :: a in rows || (|rows| == count && Above(rows, a))
  {
    rows := [];
    var rest := ids;
    while |rows| < count && rest != {}
      invariant Increasing(rows) && |rows| <= count && rest <= ids
      invariant forall a | a in rows :: a in ids
      invariant forall a | a in ids :: a in rows || a in rest
      invariant forall a | a in rest :: Above(rows, a)
      decreases |rest|
    {
      ghost var least := SmallestExists(rest);
      var smallest :| smallest in rest && forall b | b in rest :: smallest <= b;
      assert Above(rows, smallest);
      forall a | a in rest && a != smallest ensures Above(rows + [smallest], a) {
        assert Above(rows, a) && smallest <= a;
        assert forall b | b in rows + [smallest] :: b in rows || b == smallest;
      }
      rest := rest - {smallest};
      IncreasingConcat(rows, [smallest]);
      rows := rows + [smallest];
    }
  }

  predicate IsSmallest(ids: set<Id>, a: Id) {
    a in ids && forall b | b in ids :: a <= b
  }

  lemma {:induction false} SmallestExists(ids: set<Id>) returns (least: Id)
    requires ids != {}
    ensures IsSmallest(ids, least)
  {
    var x :| x in ids;
    least := x;
    if ids != {x} {
      var y := SmallestExists(ids - {x});
      least := if x <= y then x else y;
      assert forall b | b in ids :: b == x || b in ids - {x};
    }
  }
}
