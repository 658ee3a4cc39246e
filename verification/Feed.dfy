/**
 Inventory and relationship graph under any number of workers: rows are stored, projections taken
 from them are delivered late, repeatedly or not at all, and sources are rebuilt, in any order, one
 request at a time.  Overlap has requests that overlap.
 */
module Feed {
  import opened Prelude
  import opened Text
  import opened Events
  import opened ArmReferences
  import opened Relationships
  import opened RelationshipStore
  import opened Pipeline
  import Inventory

  // `taken` holds every projection a worker has made of a stored row.
  datatype State = State(rows: Inventory.Resources, taken: set<Projection>, nodes: Nodes, edges: seq<Edge>)

  datatype Step =
    | Store(tenant: Id, subscription: Id, item: Inventory.AzureItem, id: Id, now: nat)
    | Deliver(p: Projection)
    | Rebuild(k: NodeKey)

  const Initial := State(map[], {}, map[], [])

  // An item goes to the row that has its ARM id, or to a new row when there is none.
  predicate Enabled(s: State, step: Step) {
    match step
    case Store(tenant, _, item, id, _) =>
      || Inventory.IsRowOf(s.rows, id, tenant, item.armId)
      || (id !in s.rows && forall a | a in s.rows :: !Inventory.IsRowOf(s.rows, a, tenant, item.armId))
    case Deliver(p) => p in s.taken
    case Rebuild(k) => k in s.nodes
  }

  // A delivery that breaks a unique key is rolled back.
  ghost function Next(s: State, step: Step): State
    requires Enabled(s, step)
  {
    match step
    case Store(tenant, subscription, item, id, now) =>
      var rows := Inventory.StoredRows(s.rows, id, tenant, subscription, item, now);
      s.(rows := rows, taken := s.taken + {ProjectionOf(id, rows[id])})
    case Deliver(p) =>
      if Conflicts(s.nodes, p) then s
      else
        var nodes := Upserted(s.nodes, p);
        s.(nodes := nodes, edges := EdgesAfter(nodes, s.edges, p.Key()))
    case Rebuild(k) => s.(edges := EdgesAfter(s.nodes, s.edges, k))
  }

  ghost function Replay(steps: seq<Step>): Option<State> {
    if steps == [] then Some(Initial)
    else
      match Replay(Front(steps))
      case None => None
      case Some(s) => if Enabled(s, Last(steps)) then Some(Next(s, Last(steps))) else None
  }

  ghost predicate IsRun(steps: seq<Step>) {
    Replay(steps).Some?
  }

  ghost function After(steps: seq<Step>): State
    requires IsRun(steps)
  {
    Replay(steps).value
  }

  lemma PrefixOfRun(steps: seq<Step>)
    requires IsRun(steps) && steps != []
    ensures IsRun(Front(steps)) && Enabled(After(Front(steps)), Last(steps))
    ensures After(steps) == Next(After(Front(steps)), Last(steps))
  {
  }

  lemma ExtendRun(steps: seq<Step>, step: Step)
    requires IsRun(steps) && Enabled(After(steps), step)
    ensures IsRun(steps + [step]) && After(steps + [step]) == Next(After(steps), step)
  {
    assert Front(steps + [step]) == steps;
  }

  // ---------- what every interleaving keeps ----------

  ghost predicate Sound(s: State) {
    && Inventory.RowsOk(s.rows) && StoreOk(s.nodes, s.edges) && Coupled(s.rows, s.nodes)
    && forall p | p in s.taken :: TakenFrom(s.rows, p)
  }

  lemma StoreSound(s: State, step: Step)
    requires Sound(s) && step.Store? && Enabled(s, step)
    ensures Sound(Next(s, step)) && Inventory.RowsStable(s.rows, Next(s, step).rows)
  {
    if step.id in s.rows {
      Inventory.MergeKeepsRows(s.rows, step.id, step.item, step.now);
    } else {
      Inventory.InsertKeepsRows(s.rows, step.id, step.tenant, step.subscription, step.item, step.now);
    }
    CoupledWhenStable(s.rows, Next(s, step).rows, s.nodes);
  }

  lemma DeliverSound(s: State, p: Projection)
    requires Sound(s) && p in s.taken
    ensures !Conflicts(s.nodes, p) && Sound(Next(s, Deliver(p)))
  {
    ProjectionNeverConflicts(s.rows, s.nodes, p);
    UpsertKeepsStore(s.nodes, s.edges, p);
    EdgesAfterKeepsStore(Upserted(s.nodes, p), s.edges, p.Key());
  }

  lemma SoundStep(s: State, step: Step)
    requires Sound(s) && Enabled(s, step)
    ensures Sound(Next(s, step)) && Inventory.RowsStable(s.rows, Next(s, step).rows)
  {
    match step
    case Store(_, _, _, _, _) => StoreSound(s, step);
    case Deliver(p) => DeliverSound(s, p);
    case Rebuild(k) => EdgesAfterKeepsStore(s.nodes, s.edges, k);
  }

  // In every interleaving both stores keep all their unique keys, every edge joins two existing
  // nodes of its tenant, and every node stands for the row with its id.
  lemma {:induction false} EveryRunIsSound(steps: seq<Step>)
    requires IsRun(steps)
    ensures Sound(After(steps))
    ensures UniqueEdges(After(steps).edges) && EndsExist(After(steps).nodes, After(steps).edges)
  {
    if steps != [] {
      PrefixOfRun(steps);
      EveryRunIsSound(Front(steps));
      SoundStep(After(Front(steps)), Last(steps));
    }
  }

  // Served one at a time, no projection is ever refused, however late or often it arrives.
  lemma NoProjectionIsRefused(steps: seq<Step>, p: Projection)
    requires IsRun(steps) && p in After(steps).taken
    ensures !Conflicts(After(steps).nodes, p)
  {
    EveryRunIsSound(steps);
    DeliverSound(After(steps), p);
  }

  lemma OneMoreStable(rows: Inventory.Resources, s: State, step: Step)
    requires Inventory.RowsStable(rows, s.rows) && Sound(s) && Enabled(s, step)
    ensures Inventory.RowsStable(rows, Next(s, step).rows)
  {
    SoundStep(s, step);
  }

  lemma {:induction false} RowsStableSince(rows: Inventory.Resources, steps: seq<Step>, k: nat)
    requires IsRun(steps) && k <= |steps| && IsRun(steps[..k]) && rows == After(steps[..k]).rows
    ensures Inventory.RowsStable(rows, After(steps).rows)
    decreases |steps|
  {
    if k == |steps| {
      assert steps[..k] == steps;
    } else {
      PrefixOfRun(steps);
      assert Front(steps)[..k] == steps[..k];
      RowsStableSince(rows, Front(steps), k);
      EveryRunIsSound(Front(steps));
      OneMoreStable(rows, After(Front(steps)), Last(steps));
    }
  }

  lemma RowsStayStable(steps: seq<Step>, more: seq<Step>)
    requires IsRun(steps) && IsRun(steps + more)
    ensures Inventory.RowsStable(After(steps).rows, After(steps + more).rows)
  {
    assert (steps + more)[..|steps|] == steps;
    RowsStableSince(After(steps).rows, steps + more, |steps|);
  }

  // All spellings of an ARM id that differ in ASCII case only name one row, for ever, and any other
  // spelling names another.
  lemma ArmIdKeepsItsRow(steps: seq<Step>, more: seq<Step>, tenant: Id, armId: string, spelling: string, a: Id, b: Id)
    requires IsRun(steps) && IsRun(steps + more)
    requires Inventory.IsRowOf(After(steps).rows, a, tenant, armId)
    requires Inventory.IsRowOf(After(steps + more).rows, b, tenant, spelling)
    ensures a == b <==> SameUpToCase(armId, spelling)
  {
    RowsStayStable(steps, more);
    EveryRunIsSound(steps + more);
    LowerEqualExactly(armId, spelling);
  }

  // A rebuild of a supported source, by itself or as part of a delivery, makes its edges agree
  // with its properties.
  lemma StepsRebuild(s: State, step: Step, k: NodeKey)
    requires Sound(s) && Enabled(s, step)
    requires (step.Rebuild? && step.k == k) || (step.Deliver? && step.p.Key() == k)
    ensures k in Next(s, step).nodes
    ensures Supports(Next(s, step).nodes[k].resourceType) ==>
      Agrees(Next(s, step).nodes, Next(s, step).edges, k.tenant, k.resource)
  {
    if step.Deliver? {
      DeliverSound(s, step.p);
      UpsertKeepsStore(s.nodes, s.edges, step.p);
      RebuildAgrees(Upserted(s.nodes, step.p), s.edges, k.tenant, k.resource);
    } else {
      RebuildAgrees(s.nodes, s.edges, k.tenant, k.resource);
    }
  }

  // A node keeps the spelling of its ARM id that was delivered first.
  function FirstDelivered(steps: seq<Step>, k: NodeKey): Option<Projection> {
    if steps == [] then None
    else if FirstDelivered(Front(steps), k).Some? then FirstDelivered(Front(steps), k)
    else if Last(steps).Deliver? && Last(steps).p.Key() == k then Some(Last(steps).p) else None
  }

  lemma {:induction false} NodesKeepFirstSpelling(steps: seq<Step>, k: NodeKey)
    requires IsRun(steps)
    ensures k in After(steps).nodes <==> FirstDelivered(steps, k).Some?
    ensures k in After(steps).nodes ==> After(steps).nodes[k].azureId == FirstDelivered(steps, k).value.azureId
  {
    if steps != [] {
      PrefixOfRun(steps);
      NodesKeepFirstSpelling(Front(steps), k);
      EveryRunIsSound(Front(steps));
      if Last(steps).Deliver? {
        DeliverSound(After(Front(steps)), Last(steps).p);
      }
    }
  }

  // ---------- when a node is up to date ----------

  function LastDelivered(steps: seq<Step>, k: NodeKey): Option<Projection> {
    if steps == [] then None
    else if Last(steps).Deliver? && Last(steps).p.Key() == k then Some(Last(steps).p)
    else LastDelivered(Front(steps), k)
  }

  ghost predicate SameContent(p: Projection, q: Projection) {
    && p.name == q.name && Lower(p.resourceType) == Lower(q.resourceType)
    && p.resourceGroup == q.resourceGroup && p.properties == q.properties
  }

  // The node at k, if there is one, says what `last` said.
  ghost predicate Shows(nodes: Nodes, k: NodeKey, last: Option<Projection>) {
    && (k in nodes <==> last.Some?)
    && (last.Some? ==> last.value.Key() == k && NodeMatches(nodes, last.value))
  }

  lemma StepShows(s: State, step: Step, k: NodeKey, last: Option<Projection>)
    requires Sound(s) && Enabled(s, step) && Shows(s.nodes, k, last)
    ensures Shows(Next(s, step).nodes, k, if step.Deliver? && step.p.Key() == k then Some(step.p) else last)
  {
    if step.Deliver? {
      DeliverSound(s, step.p);
    }
  }

  lemma {:induction false} NodesShowLastDelivery(steps: seq<Step>, k: NodeKey)
    requires IsRun(steps)
    ensures Shows(After(steps).nodes, k, LastDelivered(steps, k))
  {
    if steps != [] {
      PrefixOfRun(steps);
      NodesShowLastDelivery(Front(steps), k);
      EveryRunIsSound(Front(steps));
      StepShows(After(Front(steps)), Last(steps), k, LastDelivered(Front(steps), k));
    }
  }

  // What a worker sends after storing an item.
  function TakenBy(step: Step): Projection
    requires step.Store?
  {
    Projection(step.tenant, step.id, step.item.armId, step.item.name, Lower(step.item.resourceType),
               step.item.resourceGroup, step.item.properties)
  }

  function LastTaken(steps: seq<Step>, id: Id): Option<Projection> {
    if steps == [] then None
    else if Last(steps).Store? && Last(steps).id == id then Some(TakenBy(Last(steps)))
    else LastTaken(Front(steps), id)
  }

  lemma {:induction false} RowsShowLastStore(steps: seq<Step>, id: Id)
    requires IsRun(steps)
    ensures id in After(steps).rows <==> LastTaken(steps, id).Some?
    ensures id in After(steps).rows ==> LastTaken(steps, id) == Some(ProjectionOf(id, After(steps).rows[id]))
  {
    if steps != [] {
      PrefixOfRun(steps);
      RowsShowLastStore(Front(steps), id);
    }
  }

  // A node says what its row says exactly when the projection delivered last has the content of
  // the projection taken last; so it does whenever that very projection was delivered last.
  lemma UpToDateExactly(steps: seq<Step>, id: Id)
    requires IsRun(steps) && id in After(steps).rows
    ensures LastTaken(steps, id).Some?
    ensures
      var taken := LastTaken(steps, id).value;
      var delivered := LastDelivered(steps, taken.Key());
      NodeMatches(After(steps).nodes, ProjectionOf(id, After(steps).rows[id])) <==>
        delivered.Some? && SameContent(delivered.value, taken)
  {
    RowsShowLastStore(steps, id);
    NodesShowLastDelivery(steps, LastTaken(steps, id).value.Key());
  }

  // Deliveries are not ordered: a projection that arrives late overwrites a newer one.
  lemma StaleProjectionWins(tenant: Id, subscription: Id, id: Id, older: Inventory.AzureItem,
                            newer: Inventory.AzureItem)
    returns (steps: seq<Step>)
    requires Lower(older.armId) == Lower(newer.armId) && older.name != newer.name
    ensures IsRun(steps) && id in After(steps).rows && After(steps).rows[id].name == newer.name
    ensures NodeKey(tenant, id) in After(steps).nodes && After(steps).nodes[NodeKey(tenant, id)].name == older.name
  {
    var first, second := Store(tenant, subscription, older, id, 1), Store(tenant, subscription, newer, id, 2);
    ExtendRun([], first);
    var one := [] + [first];
    var p := ProjectionOf(id, After(one).rows[id]);
    ExtendRun(one, second);
    var two := one + [second];
    var q := ProjectionOf(id, After(two).rows[id]);
    ExtendRun(two, Deliver(q));
    var three := two + [Deliver(q)];
    ExtendRun(three, Deliver(p));
    steps := three + [Deliver(p)];
    assert Front(steps) == three;
    NodesShowLastDelivery(steps, NodeKey(tenant, id));
  }

  // ---------- the order of arrival ----------

  // The same node up to the spelling of its ARM id, which is that of the first delivery.
  ghost predicate SameNode(a: Node, b: Node) {
    a == b.(azureId := a.azureId) && Lower(a.azureId) == Lower(b.azureId)
  }

  ghost predicate SameNodes(a: Nodes, b: Nodes) {
    forall k :: (k in a <==> k in b) && (k in a ==> SameNode(a[k], b[k]))
  }

  ghost predicate SameLast(p: Option<Projection>, q: Option<Projection>) {
    (p.Some? <==> q.Some?) && (p.Some? ==> SameContent(p.value, q.value))
  }

  // Which deliveries came last decides the nodes; nothing else about the two runs does.
  lemma LastDeliveriesDecideNodes(a: seq<Step>, b: seq<Step>)
    requires IsRun(a) && IsRun(b) && Inventory.RowsStable(After(a).rows, After(b).rows)
    requires forall k :: SameLast(LastDelivered(a, k), LastDelivered(b, k))
    ensures SameNodes(After(a).nodes, After(b).nodes)
  {
    EveryRunIsSound(a);
    EveryRunIsSound(b);
    var s, t := After(a), After(b);
    forall k ensures k in s.nodes <==> k in t.nodes
      ensures k in s.nodes ==> SameNode(s.nodes[k], t.nodes[k])
    {
      NodesShowLastDelivery(a, k);
      NodesShowLastDelivery(b, k);
      assert SameLast(LastDelivered(a, k), LastDelivered(b, k));
    }
  }

  // The nodes decide the active edges of the supported sources, once the edges are rebuilt.
  lemma SameNodesSameEdges(a: Nodes, b: Nodes, edgesA: seq<Edge>, edgesB: seq<Edge>, tenant: Id, s: Id)
    requires SameNodes(a, b) && Reconciled(a, edgesA, tenant) && Reconciled(b, edgesB, tenant)
    ensures Supported(a, tenant, s) <==> Supported(b, tenant, s)
    ensures Supported(a, tenant, s) ==>
      forall t, kind :: ActiveEdge(edgesA, tenant, s, t, kind) <==> ActiveEdge(edgesB, tenant, s, t, kind)
  {
    var k := NodeKey(tenant, s);
    assert k in a ==> SameNode(a[k], b[k]);
    if Supported(a, tenant, s) {
      assert Agrees(a, edgesA, tenant, s) && Agrees(b, edgesB, tenant, s);
      forall t ensures Refers(a, tenant, s, t) <==> Refers(b, tenant, s, t) {
        var m := NodeKey(tenant, t);
        assert m in a ==> SameNode(a[m], b[m]);
      }
    }
  }

  function Deliveries(ps: seq<Projection>): seq<Step> {
    if ps == [] then [] else Deliveries(Front(ps)) + [Deliver(Last(ps))]
  }

  // The last of `ps` for k, or else what was there before.
  function LastOf(ps: seq<Projection>, k: NodeKey, before: Option<Projection>): Option<Projection> {
    if ps == [] then before
    else if Last(ps).Key() == k then Some(Last(ps)) else LastOf(Front(ps), k, before)
  }

  lemma {:induction false} DeliveriesAreARun(steps: seq<Step>, ps: seq<Projection>)
    requires IsRun(steps) && forall p | p in ps :: p in After(steps).taken
    ensures IsRun(steps + Deliveries(ps))
    ensures After(steps + Deliveries(ps)).rows == After(steps).rows
    ensures After(steps + Deliveries(ps)).taken == After(steps).taken
    ensures forall k :: LastDelivered(steps + Deliveries(ps), k) == LastOf(ps, k, LastDelivered(steps, k))
  {
    if ps == [] {
      assert steps + Deliveries(ps) == steps;
    } else {
      DeliveriesAreARun(steps, Front(ps));
      var before := steps + Deliveries(Front(ps));
      ExtendRun(before, Deliver(Last(ps)));
      assert steps + Deliveries(ps) == before + [Deliver(Last(ps))];
      assert Front(before + [Deliver(Last(ps))]) == before;
    }
  }

  // Whatever the order in which projections arrive, repeated or not, and whatever each one did to
  // the edge table on the way: two orders with the same last projection for each resource give
  // the same nodes, the same supported sources and, once rebuilt, the same edges from them.
  lemma ArrivalOrderIsIrrelevant(steps: seq<Step>, ps: seq<Projection>, qs: seq<Projection>,
                                 edgesP: seq<Edge>, edgesQ: seq<Edge>, tenant: Id)
    requires IsRun(steps) && (forall p | p in ps || p in qs :: p in After(steps).taken)
    requires forall k :: LastOf(ps, k, None) == LastOf(qs, k, None)
    ensures IsRun(steps + Deliveries(ps)) && IsRun(steps + Deliveries(qs))
    ensures
      var a, b := After(steps + Deliveries(ps)).nodes, After(steps + Deliveries(qs)).nodes;
      && SameNodes(a, b)
      && (Reconciled(a, edgesP, tenant) && Reconciled(b, edgesQ, tenant) ==>
            forall s :: (Supported(a, tenant, s) <==> Supported(b, tenant, s))
              && (Supported(a, tenant, s) ==>
                    forall t, kind ::
                      ActiveEdge(edgesP, tenant, s, t, kind) <==> ActiveEdge(edgesQ, tenant, s, t, kind)))
  {
    DeliveriesAreARun(steps, ps);
    DeliveriesAreARun(steps, qs);
    forall k ensures SameLast(LastDelivered(steps + Deliveries(ps), k), LastDelivered(steps + Deliveries(qs), k)) {
      LastOfElse(ps, k, LastDelivered(steps, k));
      LastOfElse(qs, k, LastDelivered(steps, k));
      assert LastOf(ps, k, None) == LastOf(qs, k, None);
    }
    LastDeliveriesDecideNodes(steps + Deliveries(ps), steps + Deliveries(qs));
    var a, b := After(steps + Deliveries(ps)).nodes, After(steps + Deliveries(qs)).nodes;
    if Reconciled(a, edgesP, tenant) && Reconciled(b, edgesQ, tenant) {
      forall s ensures Supported(a, tenant, s) <==> Supported(b, tenant, s)
        ensures Supported(a, tenant, s) ==>
          forall t, kind :: ActiveEdge(edgesP, tenant, s, t, kind) <==> ActiveEdge(edgesQ, tenant, s, t, kind)
      {
        SameNodesSameEdges(a, b, edgesP, edgesQ, tenant, s);
      }
    }
  }

  lemma {:induction false} LastOfElse(ps: seq<Projection>, k: NodeKey, before: Option<Projection>)
    ensures LastOf(ps, k, before) == if LastOf(ps, k, None).Some? then LastOf(ps, k, None) else before
  {
    if ps != [] {
      LastOfElse(Front(ps), k, before);
    }
  }

  // With one projection a resource, any order of the same projections will do.
  lemma OneEachInAnyOrder(ps: seq<Projection>, qs: seq<Projection>, k: NodeKey)
    requires OneEach(ps) && OneEach(qs) && forall p :: p in ps <==> p in qs
    ensures LastOf(ps, k, None) == LastOf(qs, k, None)
  {
    LastOfOneEach(ps, k);
    LastOfOneEach(qs, k);
  }

  ghost predicate OneEach(ps: seq<Projection>) {
    forall i, j | 0 <= i < j < |ps| :: ps[i].Key() != ps[j].Key()
  }

  lemma {:induction false} LastOfOneEach(ps: seq<Projection>, k: NodeKey)
    requires OneEach(ps)
    ensures LastOf(ps, k, None).Some? <==> exists p :: p in ps && p.Key() == k
    ensures forall p | p in ps && p.Key() == k :: LastOf(ps, k, None) == Some(p)
  {
    if ps != [] {
      LastOfOneEach(Front(ps), k);
      assert forall p :: p in ps <==> p in Front(ps) || p == Last(ps);
      assert forall p | p in Front(ps) :: p.Key() != Last(ps).Key();
    }
  }
}
