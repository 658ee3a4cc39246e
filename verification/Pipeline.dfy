/**
 One run of the inventory worker: claim a job, upsert what Azure reports in one transaction, then
 project each row to the relationship service and ask it to rebuild its edges.
 */
module Pipeline {
  import opened Prelude
  import opened Text
  import opened Events
  import opened Relationships
  import opened RelationshipStore
  import Inventory

  // ---------- what ties the two stores together ----------

  // Each node stands for the inventory row with its id, and shares its normalised ARM id.
  ghost predicate Coupled(rows: Inventory.Resources, nodes: Nodes) {
    forall k | k in nodes ::
      k.resource in rows && rows[k.resource].tenant == k.tenant
      && rows[k.resource].normalizedId == nodes[k].normalizedId
  }

  function ProjectionOf(id: Id, row: Inventory.Resource): Projection {
    Projection(row.tenant, id, row.azureId, row.name, row.resourceType, row.resourceGroup, row.properties)
  }

  // A projection taken from row p.resource, at this or an earlier state of the row.
  ghost predicate TakenFrom(rows: Inventory.Resources, p: Projection) {
    p.resource in rows && rows[p.resource].tenant == p.tenant && rows[p.resource].normalizedId == Lower(p.azureId)
  }

  // Stable inventory ids are what keeps projections from ever breaking the node table's keys.
  lemma ProjectionNeverConflicts(rows: Inventory.Resources, nodes: Nodes, p: Projection)
    requires Inventory.RowsOk(rows) && Coupled(rows, nodes) && TakenFrom(rows, p)
    ensures !Conflicts(nodes, p)
    ensures Coupled(rows, Upserted(nodes, p))
  {
  }

  lemma CoupledWhenStable(before: Inventory.Resources, after: Inventory.Resources, nodes: Nodes)
    requires Coupled(before, nodes) && Inventory.RowsStable(before, after)
    ensures Coupled(after, nodes)
  {
  }

  ghost predicate NodeMatches(nodes: Nodes, p: Projection) {
    && p.Key() in nodes
    && nodes[p.Key()].name == p.name && nodes[p.Key()].resourceType == Lower(p.resourceType)
    && nodes[p.Key()].resourceGroup == p.resourceGroup && nodes[p.Key()].properties == p.properties
  }

  // No later projection of the batch is for the same row.
  ghost predicate IsLast(ps: seq<Projection>, i: nat)
    requires i < |ps|
  {
    forall j | i < j < |ps| :: ps[j].resource != ps[i].resource
  }

  lemma {:induction false} LastFor(ps: seq<Projection>, i: nat) returns (last: nat)
    requires i < |ps|
    ensures last < |ps| && ps[last].resource == ps[i].resource && IsLast(ps, last)
    decreases |ps| - i
  {
    if IsLast(ps, i) {
      last := i;
    } else {
      var j: nat :| i < j < |ps| && ps[j].resource == ps[i].resource;
      last := LastFor(ps, j);
    }
  }

  // ---------- the inventory transaction ----------

  ghost predicate InScope(items: seq<Inventory.AzureItem>, scope: set<Id>) {
    forall i | 0 <= i < |items| :: items[i].subscription in scope
  }

  ghost predicate BatchTaken(rows: Inventory.Resources, tenant: Id, items: seq<Inventory.AzureItem>,
                             ps: seq<Projection>) {
    && |ps| == |items|
    && (forall i | 0 <= i < |ps| ::
          TakenFrom(rows, ps[i]) && Inventory.IsRowOf(rows, ps[i].resource, tenant, items[i].armId))
    && (forall i | 0 <= i < |ps| && IsLast(ps, i) ::
          ps[i] == ProjectionOf(ps[i].resource, rows[ps[i].resource])
          && Inventory.Shows(rows[ps[i].resource], items[i]))
  }

  lemma BatchGrows(before: Inventory.Resources, after: Inventory.Resources, tenant: Id,
                   items: seq<Inventory.AzureItem>, ps: seq<Projection>, item: Inventory.AzureItem, id: Id)
    requires BatchTaken(before, tenant, items, ps)
    requires Inventory.RowsOk(after) && Inventory.RowsStable(before, after)
    requires Inventory.IsRowOf(after, id, tenant, item.armId) && Inventory.Shows(after[id], item)
    requires forall a | a in before && a != id :: after[a] == before[a]
    ensures BatchTaken(after, tenant, items + [item], ps + [ProjectionOf(id, after[id])])
  {
    var longer := ps + [ProjectionOf(id, after[id])];
    forall i | 0 <= i < |longer| && IsLast(longer, i)
      ensures longer[i] == ProjectionOf(longer[i].resource, after[longer[i].resource])
      ensures Inventory.Shows(after[longer[i].resource], (items + [item])[i])
    {
      if i < |ps| {
        assert longer[|ps|].resource != longer[i].resource;
        forall j | i < j < |ps| ensures ps[j].resource != ps[i].resource {
          assert longer[j].resource != longer[i].resource;
        }
        assert IsLast(ps, i);
      }
    }
  }

  // The random ids from the i-th on are not in use yet, and no two are the same.
  ghost predicate NewIdsFrom(rows: Inventory.Resources, newIds: seq<Id>, i: nat) {
    && (forall k | i <= k < |newIds| :: newIds[k] !in rows)
    && (forall j, k | i <= j < k < |newIds| :: newIds[j] != newIds[k])
  }

  // What storing one more item adds to the batch.
  lemma ItemTaken(start: Inventory.Resources, before: Inventory.Resources, after: Inventory.Resources, tenant: Id,
                  items: seq<Inventory.AzureItem>, i: nat, ps: seq<Projection>, newIds: seq<Id>, id: Id, now: nat)
    requires i < |items| == |newIds| && BatchTaken(before, tenant, items[..i], ps)
    requires Inventory.RowsStable(start, before) && NewIdsFrom(before, newIds, i)
    requires Inventory.RowsOk(after) && Inventory.RowsStable(before, after)
    requires Inventory.IsRowOf(after, id, tenant, items[i].armId) && (id in before || id == newIds[i])
    requires Inventory.Shows(after[id], items[i])
    requires after == Inventory.StoredRows(before, id, tenant, items[i].subscription, items[i], now)
    ensures BatchTaken(after, tenant, items[..i + 1], ps + [ProjectionOf(id, after[id])])
    ensures Inventory.RowsStable(start, after) && NewIdsFrom(after, newIds, i + 1)
  {
    BatchGrows(before, after, tenant, items[..i], ps, items[i], id);
    assert items[..i + 1] == items[..i] + [items[i]];
  }

  // The row an item goes to: the one with its ARM id, or a new one.
  ghost function RowIdFor(rows: Inventory.Resources, tenant: Id, armId: string, newId: Id): Id {
    if a :| a in rows && Inventory.IsRowOf(rows, a, tenant, armId) then a else newId
  }

  // The table after a batch, one item after the other.
  ghost function StoredItems(rows: Inventory.Resources, tenant: Id, items: seq<Inventory.AzureItem>,
                             newIds: seq<Id>, now: nat): Inventory.Resources
    requires |items| <= |newIds|
  {
    if items == [] then rows
    else
      var before := StoredItems(rows, tenant, Front(items), newIds, now);
      var id := RowIdFor(before, tenant, Last(items).armId, newIds[|items| - 1]);
      Inventory.StoredRows(before, id, tenant, Last(items).subscription, Last(items), now)
  }

  // How many of the items made a row, or made it differ.
  ghost function ChangedItems(rows: Inventory.Resources, tenant: Id, items: seq<Inventory.AzureItem>,
                              newIds: seq<Id>, now: nat): nat
    requires |items| <= |newIds|
  {
    if items == [] then 0
    else
      var before := StoredItems(rows, tenant, Front(items), newIds, now);
      var id := RowIdFor(before, tenant, Last(items).armId, newIds[|items| - 1]);
      ChangedItems(rows, tenant, Front(items), newIds, now) +
      if id !in before || Inventory.Observed(before[id], Last(items), now) != before[id] then 1 else 0
  }

  lemma OneMoreStored(rows: Inventory.Resources, before: Inventory.Resources, tenant: Id,
                      items: seq<Inventory.AzureItem>, i: nat, newIds: seq<Id>, id: Id, now: nat)
    requires i < |items| == |newIds| && Inventory.RowsOk(before)
    requires before == StoredItems(rows, tenant, items[..i], newIds, now)
    requires if id in before then Inventory.IsRowOf(before, id, tenant, items[i].armId)
             else id == newIds[i] && forall a | a in before :: !Inventory.IsRowOf(before, a, tenant, items[i].armId)
    ensures StoredItems(rows, tenant, items[..i + 1], newIds, now)
         == Inventory.StoredRows(before, id, tenant, items[i].subscription, items[i], now)
    ensures ChangedItems(rows, tenant, items[..i + 1], newIds, now)
         == ChangedItems(rows, tenant, items[..i], newIds, now)
            + if id !in before || Inventory.Observed(before[id], items[i], now) != before[id] then 1 else 0
  {
    assert Front(items[..i + 1]) == items[..i];
    assert RowIdFor(before, tenant, items[i].armId, newIds[i]) == id;
  }

  // The items have been stored, and that many of them changed the table.
  ghost predicate IsStored(start: Inventory.Resources, rows: Inventory.Resources, tenant: Id,
                           items: seq<Inventory.AzureItem>, newIds: seq<Id>, now: nat, changed: nat)
    requires |items| <= |newIds|
  {
    rows == StoredItems(start, tenant, items, newIds, now) && changed == ChangedItems(start, tenant, items, newIds, now)
  }

  // What holds after the first i items.
  ghost predicate BatchSoFar(start: Inventory.Resources, rows: Inventory.Resources, tenant: Id,
                             items: seq<Inventory.AzureItem>, i: nat, newIds: seq<Id>, now: nat,
                             ps: seq<Projection>, changed: nat)
    requires i <= |items| <= |newIds|
  {
    && Inventory.RowsOk(rows) && Inventory.RowsStable(start, rows) && NewIdsFrom(rows, newIds, i)
    && BatchTaken(rows, tenant, items[..i], ps)
    && IsStored(start, rows, tenant, items[..i], newIds, now, changed)
  }

  // The item was stored in row `id`, which it changed or not.
  ghost predicate Upserts(before: Inventory.Resources, after: Inventory.Resources, tenant: Id,
                          item: Inventory.AzureItem, newId: Id, now: nat, id: Id, changed: bool) {
    && Inventory.RowsOk(after) && Inventory.RowsStable(before, after)
    && Inventory.IsRowOf(after, id, tenant, item.armId) && Inventory.Shows(after[id], item)
    && after == Inventory.StoredRows(before, id, tenant, item.subscription, item, now)
    && (changed <==> id !in before || Inventory.Observed(before[id], item, now) != before[id])
    && if id in before then Inventory.IsRowOf(before, id, tenant, item.armId)
       else id == newId && forall a | a in before :: !Inventory.IsRowOf(before, a, tenant, item.armId)
  }

  lemma BatchStep(start: Inventory.Resources, before: Inventory.Resources, after: Inventory.Resources, tenant: Id,
                  items: seq<Inventory.AzureItem>, i: nat, newIds: seq<Id>, now: nat,
                  ps: seq<Projection>, count: nat, id: Id, changed: bool)
    requires i < |items| == |newIds| && BatchSoFar(start, before, tenant, items, i, newIds, now, ps, count)
    requires Upserts(before, after, tenant, items[i], newIds[i], now, id, changed)
    ensures BatchSoFar(start, after, tenant, items, i + 1, newIds, now, ps + [ProjectionOf(id, after[id])],
                       count + if changed then 1 else 0)
  {
    OneMoreStored(start, before, tenant, items, i, newIds, id, now);
    ItemTaken(start, before, after, tenant, items, i, ps, newIds, id, now);
  }

  lemma BatchDone(start: Inventory.Resources, rows: Inventory.Resources, tenant: Id,
                  items: seq<Inventory.AzureItem>, newIds: seq<Id>, now: nat, ps: seq<Projection>, changed: nat)
    requires |items| <= |newIds| && BatchSoFar(start, rows, tenant, items, |items|, newIds, now, ps, changed)
    ensures Inventory.RowsStable(start, rows) && BatchTaken(rows, tenant, items, ps)
    ensures IsStored(start, rows, tenant, items, newIds, now, changed)
  {
    assert items[..|items|] == items;
  }

  lemma BatchBegins(rows: Inventory.Resources, tenant: Id, items: seq<Inventory.AzureItem>, newIds: seq<Id>, now: nat)
    requires Inventory.RowsOk(rows) && |newIds| == |items| && NewIdsFrom(rows, newIds, 0)
    ensures BatchSoFar(rows, rows, tenant, items, 0, newIds, now, [], 0)
  {
  }

  ghost predicate FirstInScope(items: seq<Inventory.AzureItem>, scope: set<Id>, n: nat)
    requires n <= |items|
  {
    forall k | 0 <= k < n :: items[k].subscription in scope
  }

  lemma OneMoreInScope(items: seq<Inventory.AzureItem>, scope: set<Id>, n: nat)
    requires n < |items| && FirstInScope(items, scope, n) && items[n].subscription in scope
    ensures FirstInScope(items, scope, n + 1)
  {
  }

  method StoreItem(inventory: Inventory.Repository, tenant: Id, item: Inventory.AzureItem, newId: Id, now: nat)
    returns (id: Id, changed: bool)
    requires inventory.Valid() && newId !in inventory.resources
    modifies inventory`resources
    ensures inventory.Valid()
    ensures Upserts(old(inventory.resources), inventory.resources, tenant, item, newId, now, id, changed)
  {
    id, changed := inventory.UpsertResource(tenant, item.subscription, item, newId, now);
  }

  // Rolls back, leaving the table as it was, when an item's subscription is not in the job's scope.
  // `newIds[i]` is the random id that item i gets if it is new.
  method StoreBatch(inventory: Inventory.Repository, tenant: Id, scope: set<Id>,
                    items: seq<Inventory.AzureItem>, newIds: seq<Id>, now: nat)
    returns (ok: bool, projections: seq<Projection>, changed: nat)
    requires inventory.Valid() && |newIds| == |items| && NewIdsFrom(inventory.resources, newIds, 0)
    modifies inventory`resources
    ensures inventory.Valid() && Inventory.RowsStable(old(inventory.resources), inventory.resources)
    ensures ok <==> InScope(items, scope)
    ensures !ok ==> inventory.resources == old(inventory.resources)
    ensures ok ==> BatchTaken(inventory.resources, tenant, items, projections)
    ensures ok ==> IsStored(old(inventory.resources), inventory.resources, tenant, items, newIds, now, changed)
  {
    projections, changed := [], 0;
    var saved := inventory.resources;
    BatchBegins(saved, tenant, items, newIds, now);
    for i := 0 to |items|
      invariant inventory.Valid()
      invariant FirstInScope(items, scope, i)
      invariant BatchSoFar(saved, inventory.resources, tenant, items, i, newIds, now, projections, changed)
    {
      if items[i].subscription !in scope {
        inventory.resources := saved;
        return false, [], 0;
      }
      OneMoreInScope(items, scope, i);
      ghost var before := inventory.resources;
      var id, wasChanged := StoreItem(inventory, tenant, items[i], newIds[i], now);
      BatchStep(saved, before, inventory.resources, tenant, items, i, newIds, now, projections, changed, id,
                wasChanged);
      if wasChanged {
        changed := changed + 1;
      }
      projections := projections + [ProjectionOf(id, inventory.resources[id])];
    }
    BatchDone(saved, inventory.resources, tenant, items, newIds, now, projections, changed);
    ok := true;
  }

  // ---------- the projections ----------

  // A request to the relationship service may be lost, or carried out with its reply lost.
  datatype Delivery = Answered | ReplyLost | NotDelivered

  lemma LaterUpsertKeepsMatch(nodes: Nodes, p: Projection, q: Projection)
    requires NodeMatches(nodes, p) && p.Key() != q.Key()
    ensures NodeMatches(Upserted(nodes, q), p)
  {
  }

  lemma UpsertMatches(nodes: Nodes, p: Projection)
    ensures NodeMatches(Upserted(nodes, p), p)
  {
  }

  // The nodes say what the last projection of each resource among the first n said.
  ghost predicate LatestMatch(nodes: Nodes, ps: seq<Projection>, n: nat)
    requires n <= |ps|
  {
    forall k: nat | k < n && IsLast(ps[..n], k) :: NodeMatches(nodes, ps[k])
  }

  lemma OneMoreMatches(nodes: Nodes, ps: seq<Projection>, i: nat)
    requires i < |ps| && LatestMatch(nodes, ps, i)
    ensures LatestMatch(Upserted(nodes, ps[i]), ps, i + 1)
  {
    UpsertMatches(nodes, ps[i]);
    forall k: nat | k < i + 1 && IsLast(ps[..i + 1], k) ensures NodeMatches(Upserted(nodes, ps[i]), ps[k]) {
      if k < i {
        StillLast(ps, i, k);
        LaterUpsertKeepsMatch(nodes, ps[k], ps[i]);
      }
    }
  }

  // False when the client sees an error; the server may have done the work all the same.
  method PostOne(relationships: Repository, ghost rows: Inventory.Resources, p: Projection, delivery: Delivery)
    returns (ok: bool)
    requires relationships.Valid() && Inventory.RowsOk(rows) && Coupled(rows, relationships.nodes) && TakenFrom(rows, p)
    modifies relationships
    ensures relationships.Valid() && Coupled(rows, relationships.nodes)
    ensures ok <==> delivery == Answered
    ensures PostedOne(old(relationships.nodes), old(relationships.edges), relationships.nodes, relationships.edges, p,
                      delivery)
  {
    if delivery == NotDelivered {
      return false;
    }
    ProjectionNeverConflicts(rows, relationships.nodes, p);
    var added := relationships.ProjectAndExtract(p);
    ok := delivery == Answered && added.Some?;
  }

  // The relationship store after the first n projections have been carried out.
  ghost function PostedNodes(nodes: Nodes, ps: seq<Projection>, n: nat): Nodes
    requires n <= |ps|
  {
    if n == 0 then nodes else Upserted(PostedNodes(nodes, ps, n - 1), ps[n - 1])
  }

  ghost function PostedEdges(nodes: Nodes, edges: seq<Edge>, ps: seq<Projection>, n: nat): seq<Edge>
    requires n <= |ps|
  {
    if n == 0 then edges
    else EdgesAfter(PostedNodes(nodes, ps, n), PostedEdges(nodes, edges, ps, n - 1), ps[n - 1].Key())
  }

  // How many requests are carried out from the i-th on, of n in all: up to the first that is not
  // answered, and that one too when only its reply was lost.
  function CarriedOut(link: nat -> Delivery, i: nat, n: nat): (r: nat)
    requires i <= n
    ensures i <= r <= n
    decreases n - i
  {
    if i == n then n
    else
      match link(i)
      case Answered => CarriedOut(link, i + 1, n)
      case ReplyLost => i + 1
      case NotDelivered => i
  }

  // What holds once the first i projections have been answered.
  ghost predicate PostedSoFar(nodes0: Nodes, edges0: seq<Edge>, nodes: Nodes, edges: seq<Edge>,
                              ps: seq<Projection>, i: nat, link: nat -> Delivery)
    requires i <= |ps|
  {
    && (forall k | 0 <= k < i :: link(k) == Answered)
    && LatestMatch(nodes, ps, i) && CarriedOut(link, 0, |ps|) == CarriedOut(link, i, |ps|)
    && nodes == PostedNodes(nodes0, ps, i) && edges == PostedEdges(nodes0, edges0, ps, i)
  }

  lemma OneMorePosted(nodes0: Nodes, edges0: seq<Edge>, nodes: Nodes, edges: seq<Edge>, after: Nodes,
                      edges': seq<Edge>, ps: seq<Projection>, i: nat, link: nat -> Delivery)
    requires i < |ps| && PostedSoFar(nodes0, edges0, nodes, edges, ps, i, link) && link(i) == Answered
    requires PostedOne(nodes, edges, after, edges', ps[i], link(i))
    ensures PostedSoFar(nodes0, edges0, after, edges', ps, i + 1, link)
  {
    OneMoreMatches(nodes, ps, i);
  }

  // The store is as far as the link let the projections come.
  ghost predicate IsPosted(nodes0: Nodes, edges0: seq<Edge>, nodes: Nodes, edges: seq<Edge>,
                           ps: seq<Projection>, link: nat -> Delivery) {
    && nodes == PostedNodes(nodes0, ps, CarriedOut(link, 0, |ps|))
    && edges == PostedEdges(nodes0, edges0, ps, CarriedOut(link, 0, |ps|))
  }

  ghost predicate AllAnswered(link: nat -> Delivery, n: nat) {
    forall i | 0 <= i < n :: link(i) == Answered
  }

  // What one projection leaves, given how it was delivered.
  ghost predicate PostedOne(nodes: Nodes, edges: seq<Edge>, after: Nodes, edges': seq<Edge>, p: Projection,
                            delivery: Delivery) {
    if delivery == NotDelivered then after == nodes && edges' == edges
    else after == Upserted(nodes, p) && edges' == EdgesAfter(after, edges, p.Key())
  }

  // When a request gets no answer the rest is not sent.
  lemma PostingStops(nodes0: Nodes, edges0: seq<Edge>, nodes: Nodes, edges: seq<Edge>, after: Nodes,
                     edges': seq<Edge>, ps: seq<Projection>, i: nat, link: nat -> Delivery)
    requires i < |ps| && PostedSoFar(nodes0, edges0, nodes, edges, ps, i, link) && link(i) != Answered
    requires PostedOne(nodes, edges, after, edges', ps[i], link(i))
    ensures IsPosted(nodes0, edges0, after, edges', ps, link) && !AllAnswered(link, |ps|)
  {
  }

  lemma PostingDone(nodes0: Nodes, edges0: seq<Edge>, nodes: Nodes, edges: seq<Edge>, ps: seq<Projection>,
                    link: nat -> Delivery)
    requires PostedSoFar(nodes0, edges0, nodes, edges, ps, |ps|, link)
    ensures IsPosted(nodes0, edges0, nodes, edges, ps, link) && AllAnswered(link, |ps|) && AllMatch(nodes, ps)
  {
    assert ps[..|ps|] == ps;
  }

  // The nodes say what the last projection of each resource says.
  ghost predicate AllMatch(nodes: Nodes, ps: seq<Projection>) {
    forall i | 0 <= i < |ps| && IsLast(ps, i) :: NodeMatches(nodes, ps[i])
  }

  method PostAll(relationships: Repository, ghost rows: Inventory.Resources, ps: seq<Projection>, link: nat -> Delivery)
    returns (ok: bool)
    requires relationships.Valid() && Inventory.RowsOk(rows) && Coupled(rows, relationships.nodes)
    requires forall i | 0 <= i < |ps| :: TakenFrom(rows, ps[i])
    modifies relationships
    ensures relationships.Valid() && Coupled(rows, relationships.nodes)
    ensures ok <==> AllAnswered(link, |ps|)
    ensures IsPosted(old(relationships.nodes), old(relationships.edges), relationships.nodes, relationships.edges,
                     ps, link)
    ensures ok ==> AllMatch(relationships.nodes, ps)
  {
    ghost var nodes0, edges0 := relationships.nodes, relationships.edges;
    for i := 0 to |ps|
      invariant relationships.Valid() && Coupled(rows, relationships.nodes)
      invariant PostedSoFar(nodes0, edges0, relationships.nodes, relationships.edges, ps, i, link)
    {
      ghost var nodes, edges := relationships.nodes, relationships.edges;
      ok := PostOne(relationships, rows, ps[i], link(i));
      if !ok {
        PostingStops(nodes0, edges0, nodes, edges, relationships.nodes, relationships.edges, ps, i, link);
        return;
      }
      OneMorePosted(nodes0, edges0, nodes, edges, relationships.nodes, relationships.edges, ps, i, link);
    }
    PostingDone(nodes0, edges0, relationships.nodes, relationships.edges, ps, link);
    ok := true;
  }

  lemma StillLast(ps: seq<Projection>, i: nat, k: nat)
    requires k < i < |ps| && IsLast(ps[..i + 1], k)
    ensures IsLast(ps[..i], k) && ps[i].resource != ps[k].resource
  {
    var longer := ps[..i + 1];
    assert longer[i].resource != longer[k].resource;
    forall j | k < j < i ensures ps[..i][j].resource != ps[..i][k].resource {
      assert longer[j].resource != longer[k].resource;
    }
  }

  // ---------- the worker ----------

  datatype JobStatus = Queued | Running | Completed | Failed

  datatype Job = Job(tenant: Id, subscriptions: seq<Id>, requestedAt: nat, status: JobStatus, seen: nat, changed: nat)

  // A run changes neither whose job it is nor what it is to cover.
  predicate SameJob(a: Job, b: Job) {
    a.tenant == b.tenant && a.subscriptions == b.subscriptions && a.requestedAt == b.requestedAt
  }

  // What the world outside answers during one run.
  datatype World = World(
    available: set<Id>,
    fetched: Option<seq<Inventory.AzureItem>>,
    newIds: seq<Id>,
    now: nat,
    link: nat -> Delivery)

  ghost predicate Accessible(job: Job, w: World) {
    forall i | 0 <= i < |job.subscriptions| :: job.subscriptions[i] in w.available
  }

  function ScopeOf(job: Job): set<Id> {
    set i | 0 <= i < |job.subscriptions| :: job.subscriptions[i]
  }

  // Every outside answer that the run needs is a good one.
  ghost predicate AllGoesWell(job: Job, w: World) {
    && Accessible(job, w) && w.fetched.Some? && InScope(w.fetched.value, ScopeOf(job))
    && forall i | 0 <= i <= |w.fetched.value| :: w.link(i) == Answered
  }

  // Every reported item has its row, and the row has a node that says the same.
  ghost predicate AllProjected(rows: Inventory.Resources, nodes: Nodes, tenant: Id, items: seq<Inventory.AzureItem>) {
    forall i | 0 <= i < |items| :: ItemProjected(rows, nodes, tenant, items[i])
  }

  ghost predicate ItemProjected(rows: Inventory.Resources, nodes: Nodes, tenant: Id, item: Inventory.AzureItem) {
    exists id :: Inventory.IsRowOf(rows, id, tenant, item.armId) && NodeMatches(nodes, ProjectionOf(id, rows[id]))
  }

  // The last report of a resource in the batch: no later one has a spelling of its ARM id.
  ghost predicate IsLastReport(items: seq<Inventory.AzureItem>, i: nat)
    requires i < |items|
  {
    forall j | i < j < |items| :: !SameUpToCase(items[j].armId, items[i].armId)
  }

  // The tenant's row for the item has a node that says what the item says.
  ghost predicate ItemShown(rows: Inventory.Resources, nodes: Nodes, tenant: Id, item: Inventory.AzureItem) {
    exists id :: Inventory.IsRowOf(rows, id, tenant, item.armId) && NodeShows(nodes, NodeKey(tenant, id), item)
  }

  ghost predicate NodeShows(nodes: Nodes, k: NodeKey, item: Inventory.AzureItem) {
    && k in nodes && nodes[k].name == item.name && SameUpToCase(nodes[k].resourceType, item.resourceType)
    && nodes[k].resourceGroup == item.resourceGroup && nodes[k].properties == item.properties
  }

  lemma LastReportIsLast(rows: Inventory.Resources, tenant: Id, items: seq<Inventory.AzureItem>,
                         ps: seq<Projection>, i: nat)
    requires BatchTaken(rows, tenant, items, ps) && i < |items| && IsLastReport(items, i)
    ensures IsLast(ps, i)
  {
    forall j | i < j < |ps| ensures ps[j].resource != ps[i].resource {
      LowerEqualExactly(items[j].armId, items[i].armId);
      assert Inventory.IsRowOf(rows, ps[j].resource, tenant, items[j].armId);
      assert Inventory.IsRowOf(rows, ps[i].resource, tenant, items[i].armId);
    }
  }

  lemma MatchingNodeShows(nodes: Nodes, p: Projection, row: Inventory.Resource, item: Inventory.AzureItem)
    requires p == ProjectionOf(p.resource, row) && NodeMatches(nodes, p) && Inventory.Shows(row, item)
    ensures NodeShows(nodes, p.Key(), item)
  {
    LowerMeans(row.resourceType);
    LowerEqualExactly(row.resourceType, item.resourceType);
    LowerMeans(item.resourceType);
    LowerEqualExactly(nodes[p.Key()].resourceType, item.resourceType);
  }

  // What each resource was reported with last is what its node says in the end.
  lemma LastReportsShown(rows: Inventory.Resources, nodes: Nodes, tenant: Id, items: seq<Inventory.AzureItem>,
                         ps: seq<Projection>)
    requires BatchTaken(rows, tenant, items, ps)
    requires AllMatch(nodes, ps)
    ensures forall i: nat | i < |items| && IsLastReport(items, i) :: ItemShown(rows, nodes, tenant, items[i])
  {
    forall i: nat | i < |items| && IsLastReport(items, i) ensures ItemShown(rows, nodes, tenant, items[i]) {
      LastReportIsLast(rows, tenant, items, ps, i);
      MatchingNodeShows(nodes, ps[i], rows[ps[i].resource], items[i]);
      assert Inventory.IsRowOf(rows, ps[i].resource, tenant, items[i].armId);
    }
  }

  // When a run goes well: every subscription of the job is among those available, every item
  // fetched is of one of them, and each projection and the rebuild are answered.
  lemma AllGoesWellExactly(job: Job, w: World)
    ensures AllGoesWell(job, w) <==>
      && (forall id | id in job.subscriptions :: id in w.available)
      && w.fetched.Some?
      && (forall item | item in w.fetched.value :: item.subscription in job.subscriptions)
      && (forall i | 0 <= i < |w.fetched.value| :: w.link(i) == Answered)
      && w.link(|w.fetched.value|) == Answered
  {
    if w.fetched.Some? {
      var items := w.fetched.value;
      assert forall id :: id in ScopeOf(job) <==> id in job.subscriptions;
      assert InScope(items, ScopeOf(job)) <==> forall item | item in items :: item.subscription in job.subscriptions;
    }
  }

  lemma GoesWellOnceCommitted(job: Job, w: World)
    requires Commits(job, w)
    ensures AllGoesWell(job, w) <==>
      AllAnswered(w.link, |w.fetched.value|) && w.link(|w.fetched.value|) == Answered
  {
  }

  lemma BatchProjected(rows: Inventory.Resources, nodes: Nodes, tenant: Id, items: seq<Inventory.AzureItem>,
                       ps: seq<Projection>)
    requires BatchTaken(rows, tenant, items, ps)
    requires AllMatch(nodes, ps)
    ensures AllProjected(rows, nodes, tenant, items)
  {
    forall i: nat | i < |items| ensures ItemProjected(rows, nodes, tenant, items[i]) {
      var last := LastFor(ps, i);
      var id := ps[i].resource;
      assert ps[last] == ProjectionOf(id, rows[id]);
      assert Inventory.IsRowOf(rows, id, tenant, items[i].armId) && NodeMatches(nodes, ProjectionOf(id, rows[id]));
    }
  }

  // The inventory commits: the subscriptions are available and what was fetched is in scope.
  ghost predicate Commits(job: Job, w: World) {
    Accessible(job, w) && w.fetched.Some? && InScope(w.fetched.value, ScopeOf(job))
  }

  // The relationship service carries everything out, whether or not its last reply arrives.
  ghost predicate CarriesOutAll(job: Job, w: World) {
    && Commits(job, w) && AllAnswered(w.link, |w.fetched.value|)
    && w.link(|w.fetched.value|) != NotDelivered
  }

  // The stores agree on what was fetched, and the tenant's edges on its nodes.
  ghost predicate UpToDate(rows: Inventory.Resources, nodes: Nodes, edges: seq<Edge>, tenant: Id,
                           items: seq<Inventory.AzureItem>) {
    && AllProjected(rows, nodes, tenant, items) && Reconciled(nodes, edges, tenant)
    && forall i: nat | i < |items| && IsLastReport(items, i) :: ItemShown(rows, nodes, tenant, items[i])
  }

  // What the run leaves of the job and in the inventory: everything fetched, if it commits.
  ghost predicate Recorded(before: Inventory.Resources, rows: Inventory.Resources, was: Job, job: Job, w: World)
    requires w.fetched.Some? ==> |w.newIds| == |w.fetched.value|
  {
    && SameJob(was, job)
    && if Commits(was, w) then
         && IsStored(before, rows, was.tenant, w.fetched.value, w.newIds, w.now, job.changed)
         && job.seen == |w.fetched.value|
       else rows == before
  }

  class Worker {
    const inventory: Inventory.Repository
    const relationships: Repository
    var jobs: seq<Job>

    constructor (inventory: Inventory.Repository, relationships: Repository)
      requires inventory.Valid() && relationships.Valid() && Coupled(inventory.resources, relationships.nodes)
      ensures this.inventory == inventory && this.relationships == relationships && jobs == []
      ensures Valid()
    {
      this.inventory, this.relationships := inventory, relationships;
      jobs := [];
    }

    ghost predicate Valid()
      reads this, inventory, relationships
    {
      inventory.Valid() && relationships.Valid() && Coupled(inventory.resources, relationships.nodes)
    }

    predicate IsOldestQueued(c: nat)
      reads this`jobs
    {
      && c < |jobs| && jobs[c].status == Queued
      && forall j | 0 <= j < |jobs| :: jobs[j].status == Queued ==> jobs[c].requestedAt <= jobs[j].requestedAt
    }

    method ClaimJob() returns (claimed: Option<nat>)
      modifies this`jobs
      ensures claimed.None? <==> forall j | 0 <= j < |old(jobs)| :: old(jobs)[j].status != Queued
      ensures claimed.None? ==> jobs == old(jobs)
      ensures claimed.Some? ==>
        && old(IsOldestQueued(claimed.value))
        && jobs == old(jobs)[claimed.value := old(jobs)[claimed.value].(status := Running)]
    {
      claimed := None;
      for j := 0 to |jobs|
        invariant claimed.None? ==> forall i | 0 <= i < j :: jobs[i].status != Queued
        invariant claimed.Some? ==>
          && claimed.value < j && jobs[claimed.value].status == Queued
          && forall i | 0 <= i < j ::
               jobs[i].status == Queued ==> jobs[claimed.value].requestedAt <= jobs[i].requestedAt
      {
        if jobs[j].status == Queued && (claimed.None? || jobs[j].requestedAt < jobs[claimed.value].requestedAt) {
          claimed := Some(j);
        }
      }
      if claimed.Some? {
        jobs := jobs[claimed.value := jobs[claimed.value].(status := Running)];
      }
    }

    // The job is marked completed when the inventory commits, before anything is projected; a
    // later failure overwrites that.  So a run that returns with the job still completed has
    // projected every row and rebuilt the edges; and it does so exactly when every outside answer
    // was good, since no projection is ever refused.
    method RunOnce(w: World) returns (claimed: Option<nat>)
      requires Valid()
      requires w.fetched.Some? ==> |w.newIds| == |w.fetched.value|
      requires NewIdsFrom(inventory.resources, w.newIds, 0)
      modifies this`jobs, inventory`resources, relationships
      ensures Valid()
      ensures claimed.None? <==> forall j | 0 <= j < |old(jobs)| :: old(jobs)[j].status != Queued
      ensures Inventory.RowsStable(old(inventory.resources), inventory.resources)
      ensures claimed.Some? ==>
        && claimed.value < |jobs| && old(IsOldestQueued(claimed.value))
        && jobs == old(jobs)[claimed.value := jobs[claimed.value]]
        && jobs[claimed.value].status == (if AllGoesWell(old(jobs)[claimed.value], w) then Completed else Failed)
      ensures claimed.Some? && jobs[claimed.value].status == Completed ==>
        CarriesOutAll(old(jobs)[claimed.value], w)
      ensures claimed.None? ==> inventory.resources == old(inventory.resources)
      ensures claimed.Some? ==>
        Recorded(old(inventory.resources), inventory.resources, old(jobs)[claimed.value], jobs[claimed.value], w)
      ensures claimed.None? || !Commits(old(jobs)[claimed.value], w) ==>
        relationships.nodes == old(relationships.nodes) && relationships.edges == old(relationships.edges)
      ensures claimed.Some? && CarriesOutAll(old(jobs)[claimed.value], w) ==>
        UpToDate(inventory.resources, relationships.nodes, relationships.edges, jobs[claimed.value].tenant,
                 w.fetched.value)
    {
      claimed := ClaimJob();
      if claimed.None? {
        return;
      }
      var job := jobs[claimed.value];
      var ok := SyncAndProject(claimed.value, w);
      if !ok {
        jobs := jobs[claimed.value := jobs[claimed.value].(status := Failed)];
      }
    }

    // The part of the run inside the exception handler; false when an exception was raised.
    method SyncAndProject(c: nat, w: World) returns (ok: bool)
      requires Valid() && c < |jobs|
      requires w.fetched.Some? ==> |w.newIds| == |w.fetched.value|
      requires NewIdsFrom(inventory.resources, w.newIds, 0)
      modifies this`jobs, inventory`resources, relationships
      ensures Valid() && Inventory.RowsStable(old(inventory.resources), inventory.resources)
      ensures |jobs| == |old(jobs)| && jobs == old(jobs)[c := jobs[c]]
      ensures Recorded(old(inventory.resources), inventory.resources, old(jobs)[c], jobs[c], w)
      ensures ok <==> AllGoesWell(old(jobs)[c], w)
      ensures ok ==> jobs[c].status == Completed
      ensures !Commits(old(jobs)[c], w) ==>
        relationships.nodes == old(relationships.nodes) && relationships.edges == old(relationships.edges)
      ensures CarriesOutAll(old(jobs)[c], w) ==>
        UpToDate(inventory.resources, relationships.nodes, relationships.edges, old(jobs)[c].tenant, w.fetched.value)
    {
      var items := if w.fetched.Some? then w.fetched.value else [];
      var projections;
      ok, projections := Sync(c, w);
      if !ok {
        return;
      }
      ok := Project(jobs[c].tenant, items, projections, w.link);
      GoesWellOnceCommitted(old(jobs)[c], w);
    }

    // The first part, up to the commit of the inventory.
    method Sync(c: nat, w: World) returns (ok: bool, projections: seq<Projection>)
      requires Valid() && c < |jobs|
      requires w.fetched.Some? ==> |w.newIds| == |w.fetched.value|
      requires NewIdsFrom(inventory.resources, w.newIds, 0)
      modifies this`jobs, inventory`resources
      ensures Valid() && Inventory.RowsStable(old(inventory.resources), inventory.resources)
      ensures |jobs| == |old(jobs)| && jobs == old(jobs)[c := jobs[c]]
      ensures Recorded(old(inventory.resources), inventory.resources, old(jobs)[c], jobs[c], w)
      ensures ok <==> Commits(old(jobs)[c], w)
      ensures ok ==>
        jobs[c].status == Completed && BatchTaken(inventory.resources, jobs[c].tenant, w.fetched.value, projections)
    {
      var job := jobs[c];
      projections := [];
      for i := 0 to |job.subscriptions|
        invariant forall k | 0 <= k < i :: job.subscriptions[k] in w.available
      {
        if job.subscriptions[i] !in w.available {
          return false, [];
        }
      }
      if w.fetched.None? {
        return false, [];
      }
      var items := w.fetched.value;
      var changed;
      ok, projections, changed := StoreBatch(inventory, job.tenant, ScopeOf(job), items, w.newIds, w.now);
      CoupledWhenStable(old(inventory.resources), inventory.resources, relationships.nodes);
      if ok {
        jobs := jobs[c := job.(status := Completed, seen := |items|, changed := changed)];
      }
    }

    // The second part: the projections, one by one, and the rebuild.
    method Project(tenant: Id, items: seq<Inventory.AzureItem>, projections: seq<Projection>, link: nat -> Delivery)
      returns (ok: bool)
      requires Valid() && BatchTaken(inventory.resources, tenant, items, projections)
      modifies relationships
      ensures Valid() && inventory.resources == old(inventory.resources)
      ensures ok <==> AllAnswered(link, |items|) && link(|items|) == Answered
      ensures AllAnswered(link, |items|) && link(|items|) != NotDelivered ==>
        UpToDate(inventory.resources, relationships.nodes, relationships.edges, tenant, items)
    {
      ok := PostAll(relationships, inventory.resources, projections, link);
      if !ok {
        return;
      }
      BatchProjected(inventory.resources, relationships.nodes, tenant, items, projections);
      LastReportsShown(inventory.resources, relationships.nodes, tenant, items, projections);
      if link(|items|) == NotDelivered {
        return false;
      }
      var rebuilt := relationships.RebuildAll(tenant);
      if link(|items|) == ReplyLost {
        return false;
      }
    }
  }
}
