/**
 Store batches, projections and rebuilds as transactions that overlap under read-committed
 isolation: each reads what is committed at the time, writes when it commits, and is refused when
 its writes break a unique key.  Feed is this machine with one transaction at a time.
 */
module Overlap {
  import opened Prelude
  import opened Text
  import opened Events
  import opened ArmReferences
  import opened Relationships
  import opened RelationshipStore
  import opened Pipeline
  import Inventory
  import Feed

  // An item stored in row `id`, which is new unless the row was found.
  datatype Write = Write(subscription: Id, item: Inventory.AzureItem, id: Id, now: nat)

  // The rebuild of source k as computed from the table read: its first n rows were there already.
  datatype Plan = Plan(k: NodeKey, n: nat, rows: seq<Edge>)

  // A batch of one job; one projection, whose node was found or not; a rebuild of the nodes listed.
  datatype Txn =
    | Batch(tenant: Id, writes: seq<Write>)
    | Projecting(p: Projection, found: bool, plans: seq<Plan>)
    | Sweep(tenant: Id, listed: Nodes, plans: seq<Plan>)

  datatype State = State(
    rows: Inventory.Resources,
    taken: set<Projection>,
    nodes: Nodes,
    edges: seq<Edge>,
    txns: map<nat, Txn>)

  datatype Step =
    | BeginBatch(txn: nat, tenant: Id)
    | StoreItem(txn: nat, write: Write)
    | BeginProjection(txn: nat, p: Projection)
    | BeginSweep(txn: nat, tenant: Id)
    | PlanSource(txn: nat, k: NodeKey)
    | Commit(txn: nat)
    | Abort(txn: nat)

  const Initial := State(map[], {}, map[], [], map[])

  // ---------- batches ----------

  predicate SameArm(a: Write, b: Write) {
    Lower(a.item.armId) == Lower(b.item.armId)
  }

  // The row an item goes to: the one this batch or an earlier commit has for its ARM id, or else
  // a new one, whose random id is nobody else's.
  predicate RowFor(s: State, tenant: Id, writes: seq<Write>, w: Write) {
    || (exists v :: v in writes && SameArm(v, w) && v.id == w.id)
    || (&& (forall v | v in writes :: !SameArm(v, w))
        && Inventory.IsRowOf(s.rows, w.id, tenant, w.item.armId))
    || (&& (forall v | v in writes :: !SameArm(v, w))
        && (forall a | a in s.rows :: !Inventory.IsRowOf(s.rows, a, tenant, w.item.armId))
        && w.id !in s.rows
        && (forall x, v | x in s.txns && s.txns[x].Batch? && v in s.txns[x].writes :: v.id != w.id))
  }

  function Stored(rows: Inventory.Resources, tenant: Id, writes: seq<Write>): Inventory.Resources {
    if writes == [] then rows
    else
      var w := Last(writes);
      Inventory.StoredRows(Stored(rows, tenant, Front(writes)), w.id, tenant, w.subscription, w.item, w.now)
  }

  function TakenBy(tenant: Id, w: Write): Projection {
    Projection(tenant, w.id, w.item.armId, w.item.name, Lower(w.item.resourceType), w.item.resourceGroup,
               w.item.properties)
  }

  // ---------- plans ----------

  // A transaction sees its own node besides the committed ones.
  function View(s: State, t: Txn): Nodes {
    if t.Projecting? then Upserted(s.nodes, t.p) else s.nodes
  }

  // The sources a transaction rebuilds.
  predicate ToRebuild(t: Txn, k: NodeKey) {
    match t
    case Batch(_, _) => false
    case Projecting(p, _, _) => k == p.Key() && Supports(Lower(p.resourceType))
    case Sweep(tenant, listed, _) => k.tenant == tenant && k in listed && Supports(listed[k].resourceType)
  }

  function PropertiesOf(t: Txn, k: NodeKey): Json
    requires ToRebuild(t, k)
  {
    if t.Projecting? then t.p.properties else t.listed[k].properties
  }

  predicate Planned(t: Txn, k: NodeKey)
    requires !t.Batch?
  {
    exists plan :: plan in t.plans && plan.k == k
  }

  ghost function PlanFor(s: State, t: Txn, k: NodeKey): Plan
    requires ToRebuild(t, k)
  {
    Plan(k, |s.edges|, Rebuilt(View(s, t), s.edges, k.tenant, k.resource, Extracted(PropertiesOf(t, k))))
  }

  // What the plan does to the table at commit: it sets the rows it had read, whatever happened to
  // them since, and adds its own.
  function Merged(edges: seq<Edge>, plan: Plan): (r: seq<Edge>)
    requires plan.n <= |edges| && plan.n <= |plan.rows|
    ensures |r| == |edges| + |plan.rows| - plan.n
  {
    seq(|edges|, i requires 0 <= i < |edges| =>
      if i < plan.n && Current(edges[i], plan.k.tenant, plan.k.resource)
      then edges[i].(active := plan.rows[i].active, evidencePath := plan.rows[i].evidencePath)
      else edges[i])
    + plan.rows[plan.n..]
  }

  function MergedAll(edges: seq<Edge>, plans: seq<Plan>): (r: seq<Edge>)
    requires forall plan | plan in plans :: plan.n <= |edges| && plan.n <= |plan.rows|
    ensures |edges| <= |r|
  {
    if plans == [] then edges
    else
      assert Last(plans) in plans;
      Merged(MergedAll(edges, Front(plans)), Last(plans))
  }

  // ---------- the machine ----------

  predicate Begins(step: Step) {
    step.BeginBatch? || step.BeginProjection? || step.BeginSweep?
  }

  ghost predicate Enabled(s: State, step: Step) {
    if Begins(step) then step.txn !in s.txns && (step.BeginProjection? ==> step.p in s.taken)
    else
      && step.txn in s.txns
      && var t := s.txns[step.txn];
         match step
         case StoreItem(_, w) => t.Batch? && RowFor(s, t.tenant, t.writes, w)
         case PlanSource(_, k) => ToRebuild(t, k) && !Planned(t, k)
         case Commit(_) => Ready(t) && Fits(s, t) && KeysHold(s, t)
         case _ => true
  }

  predicate Ready(t: Txn) {
    match t
    case Batch(_, _) => true
    case Projecting(p, _, _) => Supports(Lower(p.resourceType)) ==> Planned(t, p.Key())
    case Sweep(tenant, listed, _) =>
      forall k | k in listed && k.tenant == tenant && Supports(listed[k].resourceType) :: Planned(t, k)
  }

  // Plans were made from earlier states of the table; tables only grow.
  predicate Fits(s: State, t: Txn) {
    !t.Batch? ==> forall plan | plan in t.plans :: plan.n <= |s.edges| && plan.n <= |plan.rows|
  }

  // The rows that a commit inserts must not break a unique key of what is committed by then.
  ghost predicate KeysHold(s: State, t: Txn) {
    match t
    case Batch(tenant, writes) => BatchHolds(s.rows, tenant, writes)
    case Projecting(p, found, plans) =>
      && (!found ==> p.Key() !in s.nodes && !Conflicts(s.nodes, p))
      && forall plan | plan in plans :: PlanHolds(s.edges, plan)
    case Sweep(_, _, plans) => forall plan | plan in plans :: PlanHolds(s.edges, plan)
  }

  // What the batch inserts is still new.
  ghost predicate BatchHolds(rows: Inventory.Resources, tenant: Id, writes: seq<Write>) {
    forall w, a | w in writes && w.id !in rows && a in rows :: !Inventory.IsRowOf(rows, a, tenant, w.item.armId)
  }

  predicate PlanHolds(edges: seq<Edge>, plan: Plan) {
    forall i, j | 0 <= i < |edges| && plan.n <= j < |plan.rows| :: !SameEdge(edges[i], plan.rows[j])
  }

  ghost function Next(s: State, step: Step): State
    requires Enabled(s, step)
  {
    match step
    case BeginBatch(x, tenant) => s.(txns := s.txns[x := Batch(tenant, [])])
    case StoreItem(x, w) => s.(txns := s.txns[x := s.txns[x].(writes := s.txns[x].writes + [w])])
    case BeginProjection(x, p) => s.(txns := s.txns[x := Projecting(p, p.Key() in s.nodes, [])])
    case BeginSweep(x, tenant) => s.(txns := s.txns[x := Sweep(tenant, s.nodes, [])])
    case PlanSource(x, k) =>
      var t := s.txns[x];
      s.(txns := s.txns[x := t.(plans := t.plans + [PlanFor(s, t, k)])])
    case Commit(x) => Committed(s, s.txns[x]).(txns := s.txns - {x})
    case Abort(x) => s.(txns := s.txns - {x})
  }

  ghost function Committed(s: State, t: Txn): State
    requires Fits(s, t)
  {
    match t
    case Batch(tenant, writes) =>
      s.(rows := Stored(s.rows, tenant, writes),
         taken := s.taken + set w | w in writes :: TakenBy(tenant, w))
    case Projecting(p, _, plans) => s.(nodes := Upserted(s.nodes, p), edges := MergedAll(s.edges, plans))
    case Sweep(_, _, plans) => s.(edges := MergedAll(s.edges, plans))
  }

  ghost function Replay(steps: seq<Step>): Option<State> {
    if steps == [] then Some(Initial)
    else
      match Replay(Front(steps))
      case None => None
      case Some(s) => if Enabled(s, Last(steps)) then Some(Next(s, Last(steps))) else None
  }

  ghost predicate IsRun(steps: seq<Step>) {
    Replay(steps).Some?
  }

  ghost function After(steps: seq<Step>): State
    requires IsRun(steps)
  {
    Replay(steps).value
  }

  lemma PrefixOfRun(steps: seq<Step>)
    requires IsRun(steps) && steps != []
    ensures IsRun(Front(steps)) && Enabled(After(Front(steps)), Last(steps))
    ensures After(steps) == Next(After(Front(steps)), Last(steps))
  {
  }

  lemma ExtendRun(steps: seq<Step>, step: Step)
    requires IsRun(steps) && Enabled(After(steps), step)
    ensures IsRun(steps + [step]) && After(steps + [step]) == Next(After(steps), step)
  {
    assert Front(steps + [step]) == steps;
  }

  // ---------- what an open transaction may rely on ----------

  // Of one batch, equal ARM ids and equal rows are the same thing; a row that is committed by now
  // is the row of that ARM id.
  ghost predicate BatchOk(rows: Inventory.Resources, tenant: Id, writes: seq<Write>) {
    && (forall v, w | v in writes && w in writes :: SameArm(v, w) <==> v.id == w.id)
    && (forall w | w in writes && w.id in rows :: Inventory.IsRowOf(rows, w.id, tenant, w.item.armId))
  }

  // The rows a plan adds are edges of its source to committed nodes, different from each other and
  // from every row that was read.
  ghost predicate PlanOk(nodes: Nodes, edges: seq<Edge>, plan: Plan) {
    && plan.n <= |edges| && plan.n <= |plan.rows|
    && (forall i | 0 <= i < plan.n :: SameEdge(edges[i], plan.rows[i]))
    && (forall j | plan.n <= j < |plan.rows| :: NewRowOk(nodes, plan.rows[j], plan.k))
    && (forall i, j | plan.n <= i < j < |plan.rows| :: !SameEdge(plan.rows[i], plan.rows[j]))
    && (forall i, j | 0 <= i < plan.n <= j < |plan.rows| :: !SameEdge(edges[i], plan.rows[j]))
  }

  ghost predicate NewRowOk(nodes: Nodes, e: Edge, k: NodeKey) {
    && e.tenant == k.tenant && e.source == k.resource
    && e.extractorName == EXTRACTOR_NAME && e.sourceSystem == SOURCE_SYSTEM
    && e.target != e.source && NodeKey(e.tenant, e.target) in nodes
  }

  ghost predicate PlansOk(nodes: Nodes, edges: seq<Edge>, plans: seq<Plan>) {
    && (forall plan | plan in plans :: PlanOk(nodes, edges, plan))
    && (forall i, j | 0 <= i < j < |plans| :: plans[i].k != plans[j].k)
  }

  ghost predicate TxnOk(s: State, t: Txn) {
    match t
    case Batch(tenant, writes) => BatchOk(s.rows, tenant, writes)
    case Projecting(p, found, plans) =>
      && p in s.taken && (found ==> p.Key() in s.nodes) && PlansOk(s.nodes, s.edges, plans)
      && forall plan | plan in plans :: plan.k == p.Key()
    case Sweep(tenant, listed, plans) =>
      && listed.Keys <= s.nodes.Keys && PlansOk(s.nodes, s.edges, plans)
      && forall plan | plan in plans :: plan.k in s.nodes
  }

  // Two batches never plan the same new row.
  ghost predicate Apart(rows: Inventory.Resources, t: Txn, u: Txn) {
    t.Batch? && u.Batch? ==>
      forall v, w | v in t.writes && w in u.writes && v.id == w.id :: v.id in rows
  }

  ghost predicate IdsApart(s: State) {
    forall x, y | x in s.txns && y in s.txns && x != y :: Apart(s.rows, s.txns[x], s.txns[y])
  }

  ghost predicate TablesOk(s: State) {
    && Inventory.RowsOk(s.rows) && StoreOk(s.nodes, s.edges) && Coupled(s.rows, s.nodes)
    && forall p | p in s.taken :: TakenFrom(s.rows, p)
  }

  ghost predicate Sound(s: State) {
    && TablesOk(s) && IdsApart(s)
    && forall x | x in s.txns :: TxnOk(s, s.txns[x])
  }

  // Tables only grow, and rows keep their identity.
  ghost predicate Grows(s: State, t: State) {
    && Inventory.RowsStable(s.rows, t.rows) && s.taken <= t.taken
    && s.nodes.Keys <= t.nodes.Keys && RowsKept(s.edges, t.edges)
  }

  // ---------- commits ----------

  // The table after a batch, or a first part of it, has been stored.
  ghost predicate StoredOk(rows: Inventory.Resources, after: Inventory.Resources, tenant: Id, writes: seq<Write>) {
    && Inventory.RowsOk(after) && Inventory.RowsStable(rows, after)
    && (forall w | w in writes :: Inventory.IsRowOf(after, w.id, tenant, w.item.armId))
    && (forall a | a in after :: a in rows || exists w :: w in writes && w.id == a)
  }

  lemma {:induction false} StoredKeepsRows(rows: Inventory.Resources, tenant: Id, writes: seq<Write>)
    requires Inventory.RowsOk(rows) && BatchOk(rows, tenant, writes) && BatchHolds(rows, tenant, writes)
    ensures StoredOk(rows, Stored(rows, tenant, writes), tenant, writes)
  {
    if writes != [] {
      var front, w := Front(writes), Last(writes);
      BatchPrefix(rows, tenant, writes);
      StoredKeepsRows(rows, tenant, front);
      StoreOneMore(rows, Stored(rows, tenant, front), tenant, writes);
    }
  }

  lemma BatchPrefix(rows: Inventory.Resources, tenant: Id, writes: seq<Write>)
    requires writes != [] && BatchOk(rows, tenant, writes) && BatchHolds(rows, tenant, writes)
    ensures BatchOk(rows, tenant, Front(writes)) && BatchHolds(rows, tenant, Front(writes))
  {
    assert forall v | v in Front(writes) :: v in writes;
  }

  // The row of the next write, if there is one already, is the right one ...
  lemma OwnRow(rows: Inventory.Resources, before: Inventory.Resources, tenant: Id, writes: seq<Write>)
    requires writes != [] && BatchOk(rows, tenant, writes) && StoredOk(rows, before, tenant, Front(writes))
    requires Last(writes).id in before
    ensures Inventory.IsRowOf(before, Last(writes).id, tenant, Last(writes).item.armId)
  {
    var w := Last(writes);
    assert w in writes;
    if w.id in rows {
      assert Inventory.IsRowOf(rows, w.id, tenant, w.item.armId);
    } else {
      var v :| v in Front(writes) && v.id == w.id;
      assert v in writes && SameArm(v, w);
      assert Inventory.IsRowOf(before, v.id, tenant, v.item.armId);
    }
  }

  // ... and if there is none, no other row has its ARM id.
  lemma NoOtherRow(rows: Inventory.Resources, before: Inventory.Resources, tenant: Id, writes: seq<Write>, a: Id)
    requires writes != [] && BatchOk(rows, tenant, writes) && BatchHolds(rows, tenant, writes)
    requires StoredOk(rows, before, tenant, Front(writes)) && Last(writes).id !in before
    ensures !Inventory.IsRowOf(before, a, tenant, Last(writes).item.armId)
  {
    var w := Last(writes);
    assert w in writes;
    if a in rows {
      assert !Inventory.IsRowOf(rows, a, tenant, w.item.armId);
    } else if a in before {
      var v :| v in Front(writes) && v.id == a;
      assert v in writes && !SameArm(v, w);
      assert Inventory.IsRowOf(before, v.id, tenant, v.item.armId);
    }
  }

  lemma StoreOneMore(rows: Inventory.Resources, before: Inventory.Resources, tenant: Id, writes: seq<Write>)
    requires writes != [] && BatchOk(rows, tenant, writes) && BatchHolds(rows, tenant, writes)
    requires StoredOk(rows, before, tenant, Front(writes))
    ensures
      var w := Last(writes);
      StoredOk(rows, Inventory.StoredRows(before, w.id, tenant, w.subscription, w.item, w.now), tenant, writes)
  {
    var w := Last(writes);
    if w.id in before {
      OwnRow(rows, before, tenant, writes);
      Inventory.MergeKeepsRows(before, w.id, w.item, w.now);
    } else {
      forall a | a in before ensures !Inventory.IsRowOf(before, a, tenant, w.item.armId) {
        NoOtherRow(rows, before, tenant, writes, a);
      }
      Inventory.InsertKeepsRows(before, w.id, tenant, w.subscription, w.item, w.now);
    }
    var after := Inventory.StoredRows(before, w.id, tenant, w.subscription, w.item, w.now);
    OneMoreStored(rows, before, after, tenant, writes);
  }

  lemma OneMoreStored(rows: Inventory.Resources, before: Inventory.Resources, after: Inventory.Resources,
                      tenant: Id, writes: seq<Write>)
    requires writes != [] && StoredOk(rows, before, tenant, Front(writes))
    requires Inventory.RowsOk(after) && Inventory.RowsStable(before, after)
    requires Inventory.IsRowOf(after, Last(writes).id, tenant, Last(writes).item.armId)
    requires after.Keys == before.Keys + {Last(writes).id}
    ensures StoredOk(rows, after, tenant, writes)
  {
    assert Last(writes) in writes && forall v | v in Front(writes) :: v in writes;
    forall v | v in writes ensures Inventory.IsRowOf(after, v.id, tenant, v.item.armId) {
      if v in Front(writes) {
        StableRowOf(before, after, v.id, tenant, v.item.armId);
      }
    }
    forall a | a in after ensures a in rows || exists w :: w in writes && w.id == a {
      if a != Last(writes).id {
        assert a in before;
      }
    }
  }

  lemma StableRowOf(before: Inventory.Resources, after: Inventory.Resources, id: Id, tenant: Id, armId: string)
    requires Inventory.RowsStable(before, after) && Inventory.IsRowOf(before, id, tenant, armId)
    ensures Inventory.IsRowOf(after, id, tenant, armId)
  {
  }

  lemma MergedKeepsRows(edges: seq<Edge>, plan: Plan)
    requires plan.n <= |edges| && plan.n <= |plan.rows|
    ensures RowsKept(edges, Merged(edges, plan))
    ensures forall i | |edges| <= i < |Merged(edges, plan)| :: Merged(edges, plan)[i] == plan.rows[i - |edges| + plan.n]
    ensures forall i | 0 <= i < |edges| :: Merged(edges, plan)[i].extractorName == edges[i].extractorName
  {
  }

  lemma MergedKeepsStore(nodes: Nodes, edges: seq<Edge>, plan: Plan)
    requires StoreOk(nodes, edges) && PlanOk(nodes, edges, plan) && PlanHolds(edges, plan) && plan.k in nodes
    ensures StoreOk(nodes, Merged(edges, plan))
  {
    var after := Merged(edges, plan);
    MergedKeepsRows(edges, plan);
    forall i, j | 0 <= i < j < |after| ensures !SameEdge(after[i], after[j]) {
      if i < |edges| {
        assert SameEdge(edges[i], after[i]);
      }
    }
    forall i | 0 <= i < |after|
      ensures after[i].extractorName == EXTRACTOR_NAME && after[i].sourceSystem == SOURCE_SYSTEM
      ensures NodeKey(after[i].tenant, after[i].source) in nodes && NodeKey(after[i].tenant, after[i].target) in nodes
      ensures after[i].source != after[i].target
    {
      if i < |edges| {
        assert SameEdge(edges[i], after[i]);
      } else {
        assert NewRowOk(nodes, plan.rows[i - |edges| + plan.n], plan.k);
      }
    }
  }

  ghost predicate IsSourceOf(k: NodeKey, e: Edge) {
    e.tenant == k.tenant && e.source == k.resource
  }

  // A plan keeps what it relies on while the table grows, and its rows stay new when only rows of
  // other sources were added.
  lemma PlanStaysOk(nodes: Nodes, edges: seq<Edge>, nodes': Nodes, edges': seq<Edge>, plan: Plan)
    requires PlanOk(nodes, edges, plan) && nodes.Keys <= nodes'.Keys && RowsKept(edges, edges')
    ensures PlanOk(nodes', edges', plan)
    ensures PlanHolds(edges, plan) && (forall i | |edges| <= i < |edges'| :: !IsSourceOf(plan.k, edges'[i]))
      ==> PlanHolds(edges', plan)
  {
    forall i | 0 <= i < plan.n ensures SameEdge(edges'[i], plan.rows[i]) {
      assert SameEdge(edges[i], edges'[i]);
    }
    forall i, j | 0 <= i < |edges| && plan.n <= j < |plan.rows|
      ensures SameEdge(edges'[i], plan.rows[j]) <==> SameEdge(edges[i], plan.rows[j])
    {
      assert SameEdge(edges[i], edges'[i]);
    }
    forall i, j | |edges| <= i < |edges'| && plan.n <= j < |plan.rows| && !IsSourceOf(plan.k, edges'[i])
      ensures !SameEdge(edges'[i], plan.rows[j])
    {
      assert NewRowOk(nodes, plan.rows[j], plan.k);
    }
  }

  // The plans of one commit, none of which anything stands in the way of.
  ghost predicate PlansHold(nodes: Nodes, edges: seq<Edge>, plans: seq<Plan>) {
    forall plan | plan in plans :: PlanHolds(edges, plan) && plan.k in nodes
  }

  lemma AllButLast(nodes: Nodes, edges: seq<Edge>, plans: seq<Plan>)
    requires plans != [] && PlansOk(nodes, edges, plans) && PlansHold(nodes, edges, plans)
    ensures PlansOk(nodes, edges, Front(plans)) && PlansHold(nodes, edges, Front(plans))
    ensures PlanOk(nodes, edges, Last(plans)) && PlanHolds(edges, Last(plans)) && Last(plans).k in nodes
    ensures forall plan | plan in Front(plans) :: plan.k != Last(plans).k
  {
    assert Last(plans) in plans && forall plan | plan in Front(plans) :: plan in plans;
  }

  // Every row added belongs to a source of the transaction.
  ghost predicate AddsOnly(edges: seq<Edge>, after: seq<Edge>, plans: seq<Plan>) {
    forall i | |edges| <= i < |after| :: FromSome(plans, after[i])
  }

  ghost predicate FromSome(plans: seq<Plan>, e: Edge) {
    exists plan :: plan in plans && IsSourceOf(plan.k, e)
  }

  lemma OneMoreMerged(nodes: Nodes, edges: seq<Edge>, before: seq<Edge>, plans: seq<Plan>)
    requires plans != [] && AddsOnly(edges, before, Front(plans)) && PlanOk(nodes, before, Last(plans))
    ensures AddsOnly(edges, Merged(before, Last(plans)), plans)
  {
    var last := Last(plans);
    var after := Merged(before, last);
    MergedKeepsRows(before, last);
    forall i | |edges| <= i < |after| ensures FromSome(plans, after[i]) {
      if i < |before| {
        assert SameEdge(before[i], after[i]) && FromSome(Front(plans), before[i]);
        var plan :| plan in Front(plans) && IsSourceOf(plan.k, before[i]);
        assert plan in plans && IsSourceOf(plan.k, after[i]);
      } else {
        assert NewRowOk(nodes, last.rows[i - |before| + last.n], last.k);
        assert last in plans && IsSourceOf(last.k, after[i]);
      }
    }
  }

  lemma NotFromOthers(edges: seq<Edge>, before: seq<Edge>, plans: seq<Plan>, k: NodeKey)
    requires AddsOnly(edges, before, plans) && forall plan | plan in plans :: plan.k != k
    ensures forall i | |edges| <= i < |before| :: !IsSourceOf(k, before[i])
  {
    forall i | |edges| <= i < |before| ensures !IsSourceOf(k, before[i]) {
      assert FromSome(plans, before[i]);
    }
  }

  lemma {:induction false} MergedAllKeepsStore(nodes: Nodes, edges: seq<Edge>, plans: seq<Plan>)
    requires StoreOk(nodes, edges) && PlansOk(nodes, edges, plans) && PlansHold(nodes, edges, plans)
    ensures StoreOk(nodes, MergedAll(edges, plans)) && RowsKept(edges, MergedAll(edges, plans))
    ensures AddsOnly(edges, MergedAll(edges, plans), plans)
  {
    if plans != [] {
      var front, last := Front(plans), Last(plans);
      AllButLast(nodes, edges, plans);
      MergedAllKeepsStore(nodes, edges, front);
      var before := MergedAll(edges, front);
      NotFromOthers(edges, before, front, last.k);
      PlanStaysOk(nodes, edges, nodes, before, last);
      MergedKeepsStore(nodes, before, last);
      MergedKeepsRows(before, last);
      RowsStillKept(edges, before, Merged(before, last));
      OneMoreMerged(nodes, edges, before, plans);
    }
  }

  // A plan as it is made is in order.
  lemma PlanForIsOk(nodes: Nodes, view: Nodes, edges: seq<Edge>, k: NodeKey, properties: Json)
    requires StoreOk(view, edges) && k in view && (forall m | m in view :: m in nodes || m == k)
    ensures PlanOk(nodes, edges, Plan(k, |edges|, Rebuilt(view, edges, k.tenant, k.resource, Extracted(properties))))
  {
    var rows := Rebuilt(view, edges, k.tenant, k.resource, Extracted(properties));
    DictionaryOfHits(Hits(properties, "$", 0));
    RebuildKeepsStore(view, edges, k.tenant, k.resource, Extracted(properties));
    RebuildKeepsAllRows(view, edges, k.tenant, k.resource, Extracted(properties));
    forall j: nat | |edges| <= j < |rows| ensures NewRowOk(nodes, rows[j], k) {
      var c := AddedRowHasCandidate(view, edges, k.tenant, k.resource, Extracted(properties), j);
    }
    forall i, j | 0 <= i < |edges| <= j < |rows| ensures !SameEdge(edges[i], rows[j]) {
      assert SameEdge(edges[i], rows[i]) && !SameEdge(rows[i], rows[j]);
    }
  }

  // ---------- what every interleaving keeps ----------

  // What a transaction is about: ARM ids in a batch, sources otherwise.
  datatype Key = ArmOf(tenant: Id, normalizedId: string) | SourceOf(k: NodeKey)

  function Touched(t: Txn): set<Key> {
    match t
    case Batch(tenant, writes) => set w | w in writes :: ArmOf(tenant, Lower(w.item.armId))
    case Projecting(p, _, _) => {SourceOf(p.Key())}
    case Sweep(_, _, plans) => set plan | plan in plans :: SourceOf(plan.k)
  }

  // All that is new in the tables is about these keys.
  ghost predicate OnlyAdds(s: State, t: State, keys: set<Key>) {
    && (forall a | a in t.rows && a !in s.rows :: ArmOf(t.rows[a].tenant, t.rows[a].normalizedId) in keys)
    && (forall k | k in t.nodes && k !in s.nodes :: SourceOf(k) in keys)
    && (forall i | |s.edges| <= i < |t.edges| :: SourceOf(NodeKey(t.edges[i].tenant, t.edges[i].source)) in keys)
  }

  lemma BatchCommitted(s: State, t: Txn)
    requires TablesOk(s) && t.Batch? && TxnOk(s, t) && KeysHold(s, t)
    ensures TablesOk(Committed(s, t)) && Grows(s, Committed(s, t)) && OnlyAdds(s, Committed(s, t), Touched(t))
    ensures forall a | a in Committed(s, t).rows :: a in s.rows || exists w :: w in t.writes && w.id == a
  {
    StoredKeepsRows(s.rows, t.tenant, t.writes);
    var after := Stored(s.rows, t.tenant, t.writes);
    CoupledWhenStable(s.rows, after, s.nodes);
    forall a | a in after && a !in s.rows ensures ArmOf(after[a].tenant, after[a].normalizedId) in Touched(t) {
      var w :| w in t.writes && w.id == a;
      assert Inventory.IsRowOf(after, w.id, t.tenant, w.item.armId);
    }
    forall w | w in t.writes ensures TakenFrom(after, TakenBy(t.tenant, w)) {
      assert Inventory.IsRowOf(after, w.id, t.tenant, w.item.armId);
    }
  }

  lemma PlansCommitted(nodes: Nodes, edges: seq<Edge>, plans: seq<Plan>, keys: set<Key>)
    requires StoreOk(nodes, edges) && PlansOk(nodes, edges, plans)
    requires forall plan | plan in plans :: PlanHolds(edges, plan) && plan.k in nodes && SourceOf(plan.k) in keys
    ensures
      var after := MergedAll(edges, plans);
      && StoreOk(nodes, after) && RowsKept(edges, after)
      && forall i | |edges| <= i < |after| :: SourceOf(NodeKey(after[i].tenant, after[i].source)) in keys
  {
    MergedAllKeepsStore(nodes, edges, plans);
    var after := MergedAll(edges, plans);
    forall i | |edges| <= i < |after| ensures SourceOf(NodeKey(after[i].tenant, after[i].source)) in keys {
      assert FromSome(plans, after[i]);
      var plan :| plan in plans && IsSourceOf(plan.k, after[i]);
      assert plan.k == NodeKey(after[i].tenant, after[i].source);
    }
  }

  lemma ProjectionCommitted(s: State, t: Txn)
    requires TablesOk(s) && t.Projecting? && TxnOk(s, t) && Fits(s, t) && KeysHold(s, t)
    ensures TablesOk(Committed(s, t)) && Grows(s, Committed(s, t)) && OnlyAdds(s, Committed(s, t), Touched(t))
  {
    var nodes := Upserted(s.nodes, t.p);
    ProjectionNeverConflicts(s.rows, s.nodes, t.p);
    UpsertKeepsStore(s.nodes, s.edges, t.p);
    forall plan | plan in t.plans ensures PlanOk(nodes, s.edges, plan) {
      PlanStaysOk(s.nodes, s.edges, nodes, s.edges, plan);
    }
    PlansCommitted(nodes, s.edges, t.plans, Touched(t));
  }

  lemma SweepCommitted(s: State, t: Txn)
    requires TablesOk(s) && t.Sweep? && TxnOk(s, t) && Fits(s, t) && KeysHold(s, t)
    ensures TablesOk(Committed(s, t)) && Grows(s, Committed(s, t)) && OnlyAdds(s, Committed(s, t), Touched(t))
  {
    PlansCommitted(s.nodes, s.edges, t.plans, Touched(t));
  }

  lemma TxnStaysOk(s: State, s': State, t: Txn)
    requires TxnOk(s, t) && Grows(s, s')
    requires t.Batch? ==> forall w | w in t.writes && w.id in s'.rows :: w.id in s.rows
    ensures TxnOk(s', t)
  {
    if !t.Batch? {
      forall plan | plan in t.plans ensures PlanOk(s'.nodes, s'.edges, plan) {
        PlanStaysOk(s.nodes, s.edges, s'.nodes, s'.edges, plan);
      }
    }
  }

  lemma OthersStayOk(s: State, x: nat, y: nat)
    requires Sound(s) && Enabled(s, Commit(x)) && y in s.txns && y != x
    requires Grows(s, Committed(s, s.txns[x]))
    ensures TxnOk(Committed(s, s.txns[x]), s.txns[y])
  {
    var t, u := s.txns[x], s.txns[y];
    assert TxnOk(s, t) && TxnOk(s, u) && Apart(s.rows, t, u);
    if t.Batch? && u.Batch? {
      BatchCommitted(s, t);
      forall w | w in u.writes && w.id in Committed(s, t).rows ensures w.id in s.rows {
        assert forall v | v in t.writes && v.id == w.id :: v.id in s.rows;
      }
    }
    TxnStaysOk(s, Committed(s, t), u);
  }

  lemma CommittedOk(s: State, x: nat)
    requires Sound(s) && Enabled(s, Commit(x))
    ensures
      var s' := Committed(s, s.txns[x]);
      TablesOk(s') && Grows(s, s') && OnlyAdds(s, s', Touched(s.txns[x]))
  {
    var t := s.txns[x];
    assert TxnOk(s, t);
    match t
    case Batch(_, _) => BatchCommitted(s, t);
    case Projecting(_, _, _) => ProjectionCommitted(s, t);
    case Sweep(_, _, _) => SweepCommitted(s, t);
  }

  // The checks on a transaction do not depend on which others are open.
  lemma SameTablesSameCheck(s: State, s': State, t: Txn)
    requires TxnOk(s, t) && s' == s.(txns := s'.txns)
    ensures TxnOk(s', t)
  {
  }

  lemma CommitSound(s: State, x: nat)
    requires Sound(s) && Enabled(s, Commit(x))
    ensures
      var s' := Next(s, Commit(x));
      Sound(s') && Grows(s, s') && OnlyAdds(s, s', Touched(s.txns[x]))
  {
    CommittedOk(s, x);
    var full, s' := Committed(s, s.txns[x]), Next(s, Commit(x));
    forall y | y in s'.txns ensures TxnOk(s', s'.txns[y]) {
      OthersStayOk(s, x, y);
      SameTablesSameCheck(full, s', s.txns[y]);
    }
    forall y, z | y in s'.txns && z in s'.txns && y != z ensures Apart(s'.rows, s'.txns[y], s'.txns[z]) {
      assert Apart(s.rows, s.txns[y], s.txns[z]);
    }
  }

  // One transaction begins or goes on; the tables stay as they are.
  lemma TxnReplaced(s: State, x: nat, t: Txn)
    requires Sound(s) && TxnOk(s, t)
    requires forall y | y in s.txns && y != x :: Apart(s.rows, t, s.txns[y])
    ensures Sound(s.(txns := s.txns[x := t]))
  {
    var s' := s.(txns := s.txns[x := t]);
    forall y | y in s'.txns ensures TxnOk(s', s'.txns[y]) {
      SameTablesSameCheck(s, s', s'.txns[y]);
    }
    forall y, z | y in s'.txns && z in s'.txns && y != z ensures Apart(s'.rows, s'.txns[y], s'.txns[z]) {
      if y == x {
        assert Apart(s.rows, t, s.txns[z]);
      } else if z == x {
        assert Apart(s.rows, t, s.txns[y]);
      } else {
        assert Apart(s.rows, s.txns[y], s.txns[z]);
      }
    }
  }

  lemma TxnRemoved(s: State, x: nat)
    requires Sound(s)
    ensures Sound(s.(txns := s.txns - {x}))
  {
    var s' := s.(txns := s.txns - {x});
    forall y | y in s'.txns ensures TxnOk(s', s'.txns[y]) {
      SameTablesSameCheck(s, s', s'.txns[y]);
    }
    forall y, z | y in s'.txns && z in s'.txns && y != z ensures Apart(s'.rows, s'.txns[y], s'.txns[z]) {
      assert Apart(s.rows, s.txns[y], s.txns[z]);
    }
  }

  lemma ItemIsItsRow(s: State, x: nat, w: Write, v: Write)
    requires Sound(s) && Enabled(s, StoreItem(x, w)) && v in s.txns[x].writes
    ensures SameArm(v, w) <==> v.id == w.id
  {
    var t := s.txns[x];
    assert TxnOk(s, t);
    assert v.id in s.rows ==> Inventory.IsRowOf(s.rows, v.id, t.tenant, v.item.armId);
    if u :| u in t.writes && SameArm(u, w) && u.id == w.id {
      assert SameArm(v, u) <==> v.id == u.id;
    }
  }

  lemma ItemRowIsCommittedOne(s: State, x: nat, w: Write)
    requires Sound(s) && Enabled(s, StoreItem(x, w)) && w.id in s.rows
    ensures Inventory.IsRowOf(s.rows, w.id, s.txns[x].tenant, w.item.armId)
  {
    var t := s.txns[x];
    assert TxnOk(s, t);
    if u :| u in t.writes && SameArm(u, w) && u.id == w.id {
      assert Inventory.IsRowOf(s.rows, u.id, t.tenant, u.item.armId);
    }
  }

  lemma ItemKeepsApart(s: State, x: nat, w: Write, y: nat)
    requires Sound(s) && Enabled(s, StoreItem(x, w)) && y in s.txns && y != x
    ensures Apart(s.rows, s.txns[x].(writes := s.txns[x].writes + [w]), s.txns[y])
  {
    var t, u := s.txns[x], s.txns[y];
    assert Apart(s.rows, t, u);
    if u.Batch? {
      forall v | v in u.writes && v.id == w.id ensures v.id in s.rows {
        if mine :| mine in t.writes && SameArm(mine, w) && mine.id == w.id {
          assert mine.id == v.id;
        }
      }
    }
  }

  lemma StoreItemSound(s: State, x: nat, w: Write)
    requires Sound(s) && Enabled(s, StoreItem(x, w))
    ensures Sound(Next(s, StoreItem(x, w)))
  {
    var t := s.txns[x];
    assert TxnOk(s, t);
    var longer := t.writes + [w];
    forall v, u | v in longer && u in longer ensures SameArm(v, u) <==> v.id == u.id {
      if v in t.writes {
        ItemIsItsRow(s, x, w, v);
      }
      if u in t.writes {
        ItemIsItsRow(s, x, w, u);
      }
    }
    if w.id in s.rows {
      ItemRowIsCommittedOne(s, x, w);
    }
    forall y | y in s.txns && y != x ensures Apart(s.rows, t.(writes := longer), s.txns[y]) {
      ItemKeepsApart(s, x, w, y);
    }
    TxnReplaced(s, x, t.(writes := longer));
  }

  lemma PlanIsOk(s: State, x: nat, k: NodeKey)
    requires Sound(s) && Enabled(s, PlanSource(x, k))
    ensures PlanOk(s.nodes, s.edges, PlanFor(s, s.txns[x], k))
  {
    var t := s.txns[x];
    assert TxnOk(s, t);
    if t.Projecting? {
      ProjectionNeverConflicts(s.rows, s.nodes, t.p);
      UpsertKeepsStore(s.nodes, s.edges, t.p);
    }
    PlanForIsOk(s.nodes, View(s, t), s.edges, k, PropertiesOf(t, k));
  }

  lemma OnePlanMore(nodes: Nodes, edges: seq<Edge>, plans: seq<Plan>, plan: Plan)
    requires PlansOk(nodes, edges, plans) && PlanOk(nodes, edges, plan)
    requires forall other | other in plans :: other.k != plan.k
    ensures PlansOk(nodes, edges, plans + [plan])
  {
    forall i, j | 0 <= i < j < |plans| + 1 ensures (plans + [plan])[i].k != (plans + [plan])[j].k {
      assert plans[i] in plans;
    }
  }

  lemma PlanSourceSound(s: State, x: nat, k: NodeKey)
    requires Sound(s) && Enabled(s, PlanSource(x, k))
    ensures Sound(Next(s, PlanSource(x, k)))
  {
    var t := s.txns[x];
    assert TxnOk(s, t);
    PlanIsOk(s, x, k);
    OnePlanMore(s.nodes, s.edges, t.plans, PlanFor(s, t, k));
    TxnReplaced(s, x, t.(plans := t.plans + [PlanFor(s, t, k)]));
  }

  lemma SoundStep(s: State, step: Step)
    requires Sound(s) && Enabled(s, step)
    ensures Sound(Next(s, step))
  {
    match step
    case BeginBatch(x, tenant) => TxnReplaced(s, x, Batch(tenant, []));
    case BeginProjection(x, p) => TxnReplaced(s, x, Projecting(p, p.Key() in s.nodes, []));
    case BeginSweep(x, tenant) => TxnReplaced(s, x, Sweep(tenant, s.nodes, []));
    case StoreItem(x, w) => StoreItemSound(s, x, w);
    case PlanSource(x, k) => PlanSourceSound(s, x, k);
    case Commit(x) => CommitSound(s, x);
    case Abort(x) => TxnRemoved(s, x);
  }

  // In every interleaving of overlapping requests both stores keep all unique keys, every edge
  // joins two nodes of its tenant, and every node stands for the row with its id.
  lemma {:induction false} EveryRunIsSound(steps: seq<Step>)
    requires IsRun(steps)
    ensures Sound(After(steps)) && TablesOk(After(steps))
  {
    if steps != [] {
      PrefixOfRun(steps);
      EveryRunIsSound(Front(steps));
      SoundStep(After(Front(steps)), Last(steps));
    }
  }

  // ---------- when a transaction is refused ----------

  // What other transactions have committed about since x began.
  ghost function CommittedSince(steps: seq<Step>, x: nat): set<Key> {
    if steps == [] || (Begins(Last(steps)) && Last(steps).txn == x) then {}
    else
      CommittedSince(Front(steps), x) +
      if Last(steps).Commit? && IsRun(Front(steps)) && Last(steps).txn in After(Front(steps)).txns
      then Touched(After(Front(steps)).txns[Last(steps).txn]) else {}
  }

  // These are the keys of the transactions committed after the last step that began x.
  lemma {:induction false} CommittedSinceMeans(steps: seq<Step>, x: nat, key: Key)
    requires IsRun(steps)
    ensures key in CommittedSince(steps, x) <==> CommitsSomewhere(steps, x, key)
  {
    if steps != [] {
      PrefixOfRun(steps);
      CommittedSinceMeans(Front(steps), x, key);
      SomewhereOneMore(steps, x, key);
    }
  }

  ghost predicate CommitsSomewhere(steps: seq<Step>, x: nat, key: Key) {
    exists i :: 0 <= i < |steps| && CommitsAt(steps, i, x, key)
  }

  lemma SomewhereOneMore(steps: seq<Step>, x: nat, key: Key)
    requires steps != [] && IsRun(steps)
    ensures CommitsSomewhere(steps, x, key) <==>
      || (CommitsSomewhere(Front(steps), x, key) && !BeginsAt(steps, |steps| - 1, x))
      || CommitsAt(steps, |steps| - 1, x, key)
    ensures CommitsAt(steps, |steps| - 1, x, key) <==>
      Last(steps).Commit? && IsRun(Front(steps)) && Last(steps).txn in After(Front(steps)).txns
      && key in Touched(After(Front(steps)).txns[Last(steps).txn])
  {
    var n := |steps| - 1;
    assert steps[..n] == Front(steps);
    if CommitsSomewhere(steps, x, key) {
      var i :| 0 <= i < |steps| && CommitsAt(steps, i, x, key);
      if i < n {
        OneStepLater(steps, i, x, key);
      }
    }
    if CommitsSomewhere(Front(steps), x, key) && !BeginsAt(steps, n, x) {
      var i :| 0 <= i < n && CommitsAt(Front(steps), i, x, key);
      OneStepLater(steps, i, x, key);
    }
  }

  lemma OneStepLater(steps: seq<Step>, i: nat, x: nat, key: Key)
    requires i < |steps| - 1
    ensures CommitsAt(steps, i, x, key) <==> CommitsAt(Front(steps), i, x, key) && !BeginsAt(steps, |steps| - 1, x)
  {
    assert Front(steps)[..i] == steps[..i];
    assert forall j: nat | i < j < |steps| - 1 :: BeginsAt(Front(steps), j, x) <==> BeginsAt(steps, j, x);
  }

  predicate BeginsAt(steps: seq<Step>, j: nat, x: nat)
    requires j < |steps|
  {
    Begins(steps[j]) && steps[j].txn == x
  }

  // Step i commits a transaction about the key, and x has not begun after it.
  ghost predicate CommitsAt(steps: seq<Step>, i: nat, x: nat, key: Key)
    requires i < |steps|
  {
    && steps[i].Commit? && IsRun(steps[..i]) && steps[i].txn in After(steps[..i]).txns
    && key in Touched(After(steps[..i]).txns[steps[i].txn])
    && forall j | i < j < |steps| :: !BeginsAt(steps, j, x)
  }

  // Whatever stands in the way of t was committed since.
  ghost predicate Explained(s: State, t: Txn, since: set<Key>) {
    match t
    case Batch(tenant, writes) =>
      forall w, a | w in writes && w.id !in s.rows && Inventory.IsRowOf(s.rows, a, tenant, w.item.armId) ::
        ArmOf(tenant, Lower(w.item.armId)) in since
    case Projecting(p, found, plans) =>
      && (!found && p.Key() in s.nodes ==> SourceOf(p.Key()) in since)
      && forall plan | plan in plans :: PlanExplained(s.edges, plan, since)
    case Sweep(_, _, plans) => forall plan | plan in plans :: PlanExplained(s.edges, plan, since)
  }

  ghost predicate PlanExplained(edges: seq<Edge>, plan: Plan, since: set<Key>) {
    forall i | 0 <= plan.n <= i < |edges| && IsSourceOf(plan.k, edges[i]) :: SourceOf(plan.k) in since
  }

  lemma GrowthExplained(s: State, s': State, t: Txn, since: set<Key>, keys: set<Key>)
    requires TxnOk(s, t) && Explained(s, t, since) && Grows(s, s') && OnlyAdds(s, s', keys)
    ensures Explained(s', t, since + keys)
  {
    if t.Batch? {
      forall w, a | w in t.writes && w.id !in s'.rows && Inventory.IsRowOf(s'.rows, a, t.tenant, w.item.armId)
        ensures ArmOf(t.tenant, Lower(w.item.armId)) in since + keys
      {
        assert a in s.rows ==> Inventory.IsRowOf(s.rows, a, t.tenant, w.item.armId);
      }
    } else {
      forall plan | plan in t.plans ensures PlanExplained(s'.edges, plan, since + keys) {
        PlanGrowthExplained(s.edges, s'.edges, plan, since, keys);
      }
    }
  }

  lemma PlanGrowthExplained(edges: seq<Edge>, edges': seq<Edge>, plan: Plan, since: set<Key>, keys: set<Key>)
    requires PlanExplained(edges, plan, since) && RowsKept(edges, edges')
    requires forall i | |edges| <= i < |edges'| :: SourceOf(NodeKey(edges'[i].tenant, edges'[i].source)) in keys
    ensures PlanExplained(edges', plan, since + keys)
  {
    forall i | 0 <= plan.n <= i < |edges'| && IsSourceOf(plan.k, edges'[i]) ensures SourceOf(plan.k) in since + keys {
      if i < |edges| {
        assert SameEdge(edges[i], edges'[i]);
        assert IsSourceOf(plan.k, edges[i]);
      } else {
        assert plan.k == NodeKey(edges'[i].tenant, edges'[i].source);
      }
    }
  }

  lemma CommitExplained(s: State, y: nat, x: nat, since: set<Key>)
    requires Sound(s) && Enabled(s, Commit(y)) && x in s.txns && x != y && Explained(s, s.txns[x], since)
    ensures Explained(Next(s, Commit(y)), s.txns[x], since + Touched(s.txns[y]))
  {
    CommitSound(s, y);
    assert TxnOk(s, s.txns[x]);
    GrowthExplained(s, Next(s, Commit(y)), s.txns[x], since, Touched(s.txns[y]));
  }

  lemma OwnStepExplained(s: State, step: Step, x: nat, since: set<Key>)
    requires Sound(s) && Enabled(s, step) && step.txn == x && !step.Commit? && !step.Abort? && !Begins(step)
    requires Explained(s, s.txns[x], since)
    ensures Explained(Next(s, step), Next(s, step).txns[x], since)
  {
    var s' := Next(s, step);
    if step.StoreItem? {
      ItemExplained(s, x, step.write, since);
      SameTablesExplained(s, s', s'.txns[x], since);
    }
  }

  lemma ExplainedStep(s: State, step: Step, x: nat, since: set<Key>)
    requires Sound(s) && Enabled(s, step) && (x in s.txns ==> Explained(s, s.txns[x], since))
    ensures
      var s' := Next(s, step);
      var since' := if Begins(step) && step.txn == x then {}
                    else since + if step.Commit? then Touched(s.txns[step.txn]) else {};
      x in s'.txns ==> Explained(s', s'.txns[x], since')
  {
    var s' := Next(s, step);
    assert since + {} == since;
    if x in s'.txns && !(Begins(step) && step.txn == x) {
      if step.Commit? {
        CommitExplained(s, step.txn, x, since);
      } else if step.txn == x {
        OwnStepExplained(s, step, x, since);
      } else {
        SameTablesExplained(s, s', s.txns[x], since);
      }
    }
  }

  lemma SameTablesExplained(s: State, s': State, t: Txn, since: set<Key>)
    requires Explained(s, t, since) && s' == s.(txns := s'.txns)
    ensures Explained(s', t, since)
  {
  }

  lemma ItemExplained(s: State, x: nat, w: Write, since: set<Key>)
    requires Sound(s) && Enabled(s, StoreItem(x, w)) && Explained(s, s.txns[x], since)
    ensures Explained(s, s.txns[x].(writes := s.txns[x].writes + [w]), since)
  {
    var t := s.txns[x];
    forall a | w.id !in s.rows && Inventory.IsRowOf(s.rows, a, t.tenant, w.item.armId)
      ensures ArmOf(t.tenant, Lower(w.item.armId)) in since
    {
      if v :| v in t.writes && SameArm(v, w) && v.id == w.id {
        assert Inventory.IsRowOf(s.rows, a, t.tenant, v.item.armId);
      }
    }
  }

  lemma {:induction false} EverythingExplained(steps: seq<Step>, x: nat)
    requires IsRun(steps)
    ensures x in After(steps).txns ==> Explained(After(steps), After(steps).txns[x], CommittedSince(steps, x))
  {
    if steps != [] {
      PrefixOfRun(steps);
      EverythingExplained(Front(steps), x);
      EveryRunIsSound(Front(steps));
      ExplainedStep(After(Front(steps)), Last(steps), x, CommittedSince(Front(steps), x));
    }
  }

  lemma ClashIsExplained(s: State, t: Txn, since: set<Key>)
    requires TablesOk(s) && TxnOk(s, t) && Explained(s, t, since) && !KeysHold(s, t)
    ensures Touched(t) * since != {}
  {
    match t
    case Batch(tenant, writes) =>
      var w, a :| w in writes && w.id !in s.rows && a in s.rows && Inventory.IsRowOf(s.rows, a, tenant, w.item.armId);
      assert ArmOf(tenant, Lower(w.item.armId)) in Touched(t) * since;
    case Projecting(p, found, plans) =>
      ProjectionNeverConflicts(s.rows, s.nodes, p);
      if found || p.Key() !in s.nodes {
        var plan :| plan in plans && !PlanHolds(s.edges, plan);
        PlanClashIsExplained(s, plan, since);
      }
      assert SourceOf(p.Key()) in Touched(t) * since;
    case Sweep(_, _, plans) =>
      var plan :| plan in plans && !PlanHolds(s.edges, plan);
      PlanClashIsExplained(s, plan, since);
      assert SourceOf(plan.k) in Touched(t) * since;
  }

  lemma PlanClashIsExplained(s: State, plan: Plan, since: set<Key>)
    requires PlanOk(s.nodes, s.edges, plan) && PlanExplained(s.edges, plan, since) && !PlanHolds(s.edges, plan)
    ensures SourceOf(plan.k) in since
  {
    var i, j :| 0 <= i < |s.edges| && plan.n <= j < |plan.rows| && SameEdge(s.edges[i], plan.rows[j]);
    assert NewRowOk(s.nodes, plan.rows[j], plan.k);
    assert IsSourceOf(plan.k, s.edges[i]);
  }

  // A transaction that is ready commits, unless another one about the same ARM id or the same
  // source has committed since it began.
  lemma RefusedOnlyWhenOverlapped(steps: seq<Step>, x: nat)
    requires IsRun(steps) && x in After(steps).txns && Ready(After(steps).txns[x])
    ensures Enabled(After(steps), Commit(x)) || Touched(After(steps).txns[x]) * CommittedSince(steps, x) != {}
  {
    EveryRunIsSound(steps);
    EverythingExplained(steps, x);
    var s := After(steps);
    var t := s.txns[x];
    assert TxnOk(s, t);
    if !KeysHold(s, t) {
      ClashIsExplained(s, t, CommittedSince(steps, x));
    }
  }

  // ---------- transactions that really overlap ----------

  lemma StaysInTheWay(s: State, x: nat, y: nat)
    requires Sound(s) && Enabled(s, Commit(x)) && y in s.txns && y != x
    requires !KeysHold(Committed(s, s.txns[x]), s.txns[y])
    ensures y in Next(s, Commit(x)).txns && !Enabled(Next(s, Commit(x)), Commit(y))
  {
  }

  // Of two projections that both found no node for a resource, the one that commits first has the
  // other refused ...
  lemma FirstProjectionsClash(s: State, x: nat, y: nat)
    requires Sound(s) && Enabled(s, Commit(x)) && y in s.txns && y != x
    requires s.txns[x].Projecting? && s.txns[y].Projecting? && s.txns[x].p.Key() == s.txns[y].p.Key()
    requires !s.txns[y].found
    ensures !Enabled(Next(s, Commit(x)), Commit(y))
  {
    StaysInTheWay(s, x, y);
  }

  // ... and so it is with two batches that both found no row for an ARM id ...
  lemma BatchesClash(s: State, x: nat, y: nat, v: Write, w: Write)
    requires Sound(s) && Enabled(s, Commit(x)) && y in s.txns && y != x
    requires s.txns[x].Batch? && s.txns[y].Batch? && s.txns[x].tenant == s.txns[y].tenant
    requires v in s.txns[x].writes && w in s.txns[y].writes && SameArm(v, w) && v.id != w.id
    ensures !Enabled(Next(s, Commit(x)), Commit(y))
  {
    BatchLeavesRow(s, s.txns[x], v);
    CommittedOk(s, x);
    OthersStayOk(s, x, y);
    RowInTheWay(Committed(s, s.txns[x]), s.txns[y], v.id, w);
    StaysInTheWay(s, x, y);
  }

  lemma BatchLeavesRow(s: State, t: Txn, v: Write)
    requires Sound(s) && t in s.txns.Values && t.Batch? && KeysHold(s, t) && v in t.writes
    ensures Inventory.IsRowOf(Committed(s, t).rows, v.id, t.tenant, v.item.armId)
  {
    assert TxnOk(s, t);
    StoredKeepsRows(s.rows, t.tenant, t.writes);
  }

  lemma RowInTheWay(s: State, t: Txn, a: Id, w: Write)
    requires TablesOk(s) && t.Batch? && TxnOk(s, t) && w in t.writes && w.id != a
    requires Inventory.IsRowOf(s.rows, a, t.tenant, w.item.armId)
    ensures !KeysHold(s, t)
  {
    assert w.id in s.rows ==> Inventory.IsRowOf(s.rows, w.id, t.tenant, w.item.armId);
  }

  // ... and with two rebuilds of a source that would both add one edge.
  lemma RebuildsClash(s: State, x: nat, y: nat, mine: Plan, other: Plan, i: nat, j: nat)
    requires Sound(s) && Enabled(s, Commit(x)) && y in s.txns && y != x
    requires !s.txns[x].Batch? && !s.txns[y].Batch? && mine in s.txns[x].plans && other in s.txns[y].plans
    requires mine.n <= i < |mine.rows| && other.n <= j < |other.rows| && SameEdge(mine.rows[i], other.rows[j])
    ensures !Enabled(Next(s, Commit(x)), Commit(y))
  {
    var at := MergedAllHas(s.edges, s.txns[x].plans, mine, i);
    StaysInTheWay(s, x, y);
  }

  lemma {:induction false} MergedAllHas(edges: seq<Edge>, plans: seq<Plan>, plan: Plan, i: nat) returns (at: nat)
    requires forall p | p in plans :: p.n <= |edges| && p.n <= |p.rows|
    requires plan in plans && plan.n <= i < |plan.rows|
    ensures at < |MergedAll(edges, plans)| && SameEdge(MergedAll(edges, plans)[at], plan.rows[i])
  {
    var front, last := Front(plans), Last(plans);
    assert last in plans && forall p | p in front :: p in plans;
    var before := MergedAll(edges, front);
    MergedKeepsRows(before, last);
    if plan in front {
      at := MergedAllHas(edges, front, plan, i);
      assert SameEdge(before[at], Merged(before, last)[at]);
    } else {
      at := |before| + i - plan.n;
    }
  }

  // Such projections exist: whenever a resource has a projection but no node yet.
  lemma FirstProjectionsCanOverlap(before: seq<Step>, p: Projection, x: nat, y: nat) returns (steps: seq<Step>)
    requires IsRun(before) && p in After(before).taken && p.Key() !in After(before).nodes
    requires x != y && x !in After(before).txns && y !in After(before).txns
    ensures IsRun(steps) && x in After(steps).txns && y in After(steps).txns
    ensures Enabled(After(steps), Commit(x)) && !Enabled(Next(After(steps), Commit(x)), Commit(y))
  {
    EveryRunIsSound(before);
    LoneProjection(After(before), x, p);
    var ready := ReadySteps(before, x, p);
    EveryRunIsSound(ready);
    SecondBegins(After(ready), x, y, p);
    ExtendRun(ready, BeginProjection(y, p));
    steps := ready + [BeginProjection(y, p)];
  }

  lemma SecondBegins(s: State, x: nat, y: nat, p: Projection)
    requires Sound(s) && Enabled(s, Commit(x)) && y !in s.txns && s.txns[x].Projecting? && s.txns[x].p == p
    requires p in s.taken && p.Key() !in s.nodes
    ensures
      var t := Next(s, BeginProjection(y, p));
      x in t.txns && y in t.txns && Enabled(t, Commit(x)) && !Enabled(Next(t, Commit(x)), Commit(y))
  {
    var t := Next(s, BeginProjection(y, p));
    SoundStep(s, BeginProjection(y, p));
    SameTablesSameKeys(s, t, s.txns[x]);
    FirstProjectionsClash(t, x, y);
  }

  lemma SameTablesSameKeys(s: State, s': State, t: Txn)
    requires Fits(s, t) && KeysHold(s, t) && s' == s.(txns := s'.txns)
    ensures Fits(s', t) && KeysHold(s', t)
  {
  }

  // ---------- transactions that do not overlap ----------

  function Tables(s: State): Feed.State {
    Feed.State(s.rows, s.taken, s.nodes, s.edges)
  }

  // A projection with no other commit in between is one delivery of the serial machine.
  lemma LoneProjectionIsDelivery(before: seq<Step>, x: nat, p: Projection) returns (steps: seq<Step>)
    requires IsRun(before) && p in After(before).taken && x !in After(before).txns
    ensures IsRun(steps) && Tables(After(steps)) == Feed.Next(Tables(After(before)), Feed.Deliver(p))
    ensures After(steps).txns == After(before).txns
  {
    EveryRunIsSound(before);
    LoneProjection(After(before), x, p);
    steps := ReadySteps(before, x, p);
    ExtendRun(steps, Commit(x));
    steps := steps + [Commit(x)];
  }

  lemma ReadySteps(before: seq<Step>, x: nat, p: Projection) returns (steps: seq<Step>)
    requires IsRun(before) && Sound(After(before)) && p in After(before).taken && x !in After(before).txns
    ensures IsRun(steps)
    ensures
      var begun := Next(After(before), BeginProjection(x, p));
      After(steps) == if Supports(Lower(p.resourceType)) then Next(begun, PlanSource(x, p.Key())) else begun
  {
    ExtendRun(before, BeginProjection(x, p));
    steps := before + [BeginProjection(x, p)];
    if Supports(Lower(p.resourceType)) {
      var plan := PlannedAlone(After(before), x, p);
      ExtendRun(steps, PlanSource(x, p.Key()));
      steps := steps + [PlanSource(x, p.Key())];
    }
  }

  lemma LoneProjection(s: State, x: nat, p: Projection)
    requires Sound(s) && p in s.taken && x !in s.txns
    ensures
      var begun := Next(s, BeginProjection(x, p));
      var ready := if Supports(Lower(p.resourceType)) then Next(begun, PlanSource(x, p.Key())) else begun;
      && Enabled(ready, Commit(x))
      && Tables(Next(ready, Commit(x))) == Feed.Next(Tables(s), Feed.Deliver(p))
      && Next(ready, Commit(x)).txns == s.txns
  {
    ProjectionNeverConflicts(s.rows, s.nodes, p);
    if Supports(Lower(p.resourceType)) {
      var plan := PlannedAlone(s, x, p);
      LoneCommit(s, x, p, [plan]);
    } else {
      LoneCommit(s, x, p, []);
    }
  }

  // The two steps before the commit, and what they prepare.
  lemma PlannedAlone(s: State, x: nat, p: Projection) returns (plan: Plan)
    requires Sound(s) && p in s.taken && x !in s.txns && Supports(Lower(p.resourceType))
    ensures
      var begun := Next(s, BeginProjection(x, p));
      && Enabled(begun, PlanSource(x, p.Key()))
      && Next(begun, PlanSource(x, p.Key())) == s.(txns := s.txns[x := Projecting(p, p.Key() in s.nodes, [plan])])
    ensures plan.k == p.Key() && plan.n == |s.edges| <= |plan.rows| && PlanHolds(s.edges, plan)
    ensures MergedAll(s.edges, [plan]) == EdgesAfter(Upserted(s.nodes, p), s.edges, p.Key())
  {
    var view := Upserted(s.nodes, p);
    plan := Plan(p.Key(), |s.edges|,
                 Rebuilt(view, s.edges, p.tenant, p.resource, Extracted(p.properties)));
    ProjectionNeverConflicts(s.rows, s.nodes, p);
    UpsertKeepsStore(s.nodes, s.edges, p);
    PlanForIsOk(s.nodes, view, s.edges, p.Key(), p.properties);
    LonePlan(s.nodes, s.edges, p, plan);
    PlanStep(s, x, p, plan);
  }

  lemma PlanStep(s: State, x: nat, p: Projection, plan: Plan)
    requires p in s.taken && x !in s.txns && Supports(Lower(p.resourceType))
    requires plan == PlanFor(s, Projecting(p, p.Key() in s.nodes, []), p.Key())
    ensures
      var begun := Next(s, BeginProjection(x, p));
      && Enabled(begun, PlanSource(x, p.Key()))
      && Next(begun, PlanSource(x, p.Key())) == s.(txns := s.txns[x := Projecting(p, p.Key() in s.nodes, [plan])])
  {
    assert [] + [plan] == [plan];
  }

  lemma LoneCommit(s: State, x: nat, p: Projection, plans: seq<Plan>)
    requires x !in s.txns && !Conflicts(s.nodes, p)
    requires Supports(Lower(p.resourceType)) ==> exists plan :: plan in plans && plan.k == p.Key()
    requires forall plan | plan in plans :: plan.n <= |s.edges| && plan.n <= |plan.rows| && PlanHolds(s.edges, plan)
    requires MergedAll(s.edges, plans) == EdgesAfter(Upserted(s.nodes, p), s.edges, p.Key())
    ensures
      var ready := s.(txns := s.txns[x := Projecting(p, p.Key() in s.nodes, plans)]);
      && Enabled(ready, Commit(x))
      && Tables(Next(ready, Commit(x)))
           == Tables(s).(nodes := Upserted(s.nodes, p), edges := EdgesAfter(Upserted(s.nodes, p), s.edges, p.Key()))
      && Next(ready, Commit(x)).txns == s.txns
  {
    var ready := s.(txns := s.txns[x := Projecting(p, p.Key() in s.nodes, plans)]);
    assert ready.txns - {x} == s.txns;
  }

  lemma LonePlan(nodes: Nodes, edges: seq<Edge>, p: Projection, plan: Plan)
    requires Supports(Lower(p.resourceType)) && PlanOk(nodes, edges, plan) && plan.k == p.Key() && plan.n == |edges|
    requires plan.rows == Rebuilt(Upserted(nodes, p), edges, p.tenant, p.resource, Extracted(p.properties))
    ensures PlanHolds(edges, plan)
    ensures MergedAll(edges, [plan]) == EdgesAfter(Upserted(nodes, p), edges, p.Key())
  {
    assert Front([plan]) == [] && MergedAll(edges, [plan]) == Merged(edges, plan);
    forall i: nat | i < |edges| ensures KeepsRow(edges[i], plan.rows[i], p.tenant, p.resource) {
      RebuiltKeepsRows(Upserted(nodes, p), edges, p.tenant, p.resource, Extracted(p.properties), i);
    }
    MergedAlone(edges, plan);
  }

  // Merged into the table it was made from, a plan is carried out to the letter.
  lemma MergedAlone(edges: seq<Edge>, plan: Plan)
    requires plan.n == |edges| <= |plan.rows|
    requires forall i | 0 <= i < |edges| :: KeepsRow(edges[i], plan.rows[i], plan.k.tenant, plan.k.resource)
    ensures Merged(edges, plan) == plan.rows
  {
    var after := Merged(edges, plan);
    forall i | 0 <= i < |after| ensures after[i] == plan.rows[i] {
      assert i < |edges| ==> KeepsRow(edges[i], plan.rows[i], plan.k.tenant, plan.k.resource);
    }
  }

  // A batch of one item with no other commit in between is one store of the serial machine.
  lemma LoneItemIsStore(before: seq<Step>, x: nat, tenant: Id, w: Write)
    requires IsRun(before) && x !in After(before).txns
    requires RowFor(After(before), tenant, [], w)
    ensures
      var steps := before + [BeginBatch(x, tenant)] + [StoreItem(x, w)] + [Commit(x)];
      var store := Feed.Store(tenant, w.subscription, w.item, w.id, w.now);
      && IsRun(steps) && Feed.Enabled(Tables(After(before)), store)
      && Tables(After(steps)) == Feed.Next(Tables(After(before)), store)
  {
    EveryRunIsSound(before);
    LoneItem(After(before), x, tenant, w);
    ExtendRun(before, BeginBatch(x, tenant));
    var begun := before + [BeginBatch(x, tenant)];
    ExtendRun(begun, StoreItem(x, w));
    ExtendRun(begun + [StoreItem(x, w)], Commit(x));
  }

  lemma OneItemStored(rows: Inventory.Resources, tenant: Id, w: Write)
    requires w.id !in rows || Inventory.IsRowOf(rows, w.id, tenant, w.item.armId)
    ensures
      var after := Inventory.StoredRows(rows, w.id, tenant, w.subscription, w.item, w.now);
      Stored(rows, tenant, [w]) == after && ProjectionOf(w.id, after[w.id]) == TakenBy(tenant, w)
  {
    assert Front([w]) == [];
  }

  lemma LoneItem(s: State, x: nat, tenant: Id, w: Write)
    requires x !in s.txns && RowFor(s, tenant, [], w)
    ensures
      var begun := Next(s, BeginBatch(x, tenant));
      var store := Feed.Store(tenant, w.subscription, w.item, w.id, w.now);
      && Enabled(begun, StoreItem(x, w)) && Enabled(Next(begun, StoreItem(x, w)), Commit(x))
      && Feed.Enabled(Tables(s), store)
      && Tables(Next(Next(begun, StoreItem(x, w)), Commit(x))) == Feed.Next(Tables(s), store)
  {
    var begun := Next(s, BeginBatch(x, tenant));
    assert begun == s.(txns := s.txns[x := Batch(tenant, [])]);
    assert RowFor(begun, tenant, [], w);
    var stored := Next(begun, StoreItem(x, w));
    assert stored == s.(txns := s.txns[x := Batch(tenant, [] + [w])]);
    OneItemStored(s.rows, tenant, w);
    LoneBatchCommit(s, x, tenant, w);
  }

  lemma LoneBatchCommit(s: State, x: nat, tenant: Id, w: Write)
    requires x !in s.txns && RowFor(s, tenant, [], w)
    requires Stored(s.rows, tenant, [w]) == Inventory.StoredRows(s.rows, w.id, tenant, w.subscription, w.item, w.now)
    ensures
      var ready := s.(txns := s.txns[x := Batch(tenant, [w])]);
      && Enabled(ready, Commit(x))
      && Tables(Next(ready, Commit(x))) == Tables(s).(
           rows := Inventory.StoredRows(s.rows, w.id, tenant, w.subscription, w.item, w.now),
           taken := s.taken + {TakenBy(tenant, w)})
  {
    assert (set v | v in [w] :: TakenBy(tenant, v)) == {TakenBy(tenant, w)};
  }

  ghost predicate Carries(e: Edge, planned: Edge) {
    SameEdge(e, planned) && e.active == planned.active
  }

  ghost predicate Holds(edges: seq<Edge>, e: Edge) {
    exists i :: 0 <= i < |edges| && Carries(edges[i], e)
  }

  // The source's rows in the table are the planned ones.
  ghost predicate Shows(after: seq<Edge>, plan: Plan) {
    && (forall j | 0 <= j < |plan.rows| && IsSourceOf(plan.k, plan.rows[j]) :: Holds(after, plan.rows[j]))
    && (forall i | 0 <= i < |after| && IsSourceOf(plan.k, after[i]) :: Holds(plan.rows, after[i]))
  }

  lemma MergedHoldsPlan(nodes: Nodes, edges: seq<Edge>, plan: Plan, j: nat)
    requires OneExtractor(edges) && PlanOk(nodes, edges, plan) && j < |plan.rows| && IsSourceOf(plan.k, plan.rows[j])
    ensures Holds(Merged(edges, plan), plan.rows[j])
  {
    var i := if j < plan.n then j else |edges| + j - plan.n;
    assert j < plan.n ==> SameEdge(edges[j], plan.rows[j]);
    assert Carries(Merged(edges, plan)[i], plan.rows[j]);
  }

  lemma PlanHoldsMerged(nodes: Nodes, edges: seq<Edge>, plan: Plan, i: nat)
    requires OneExtractor(edges) && PlanOk(nodes, edges, plan)
    requires forall m | plan.n <= m < |edges| :: !IsSourceOf(plan.k, edges[m])
    requires i < |Merged(edges, plan)| && IsSourceOf(plan.k, Merged(edges, plan)[i])
    ensures Holds(plan.rows, Merged(edges, plan)[i])
  {
    var j := if i < |edges| then i else i - |edges| + plan.n;
    assert i < |edges| ==> IsSourceOf(plan.k, edges[i]);
    assert j < plan.n ==> SameEdge(edges[j], plan.rows[j]);
    assert Carries(plan.rows[j], Merged(edges, plan)[i]);
  }

  lemma MergedShows(nodes: Nodes, edges: seq<Edge>, plan: Plan)
    requires OneExtractor(edges) && PlanOk(nodes, edges, plan)
    requires forall i | plan.n <= i < |edges| :: !IsSourceOf(plan.k, edges[i])
    ensures Shows(Merged(edges, plan), plan)
  {
    forall j: nat | j < |plan.rows| && IsSourceOf(plan.k, plan.rows[j])
      ensures Holds(Merged(edges, plan), plan.rows[j])
    {
      MergedHoldsPlan(nodes, edges, plan, j);
    }
    forall i: nat | i < |Merged(edges, plan)| && IsSourceOf(plan.k, Merged(edges, plan)[i])
      ensures Holds(plan.rows, Merged(edges, plan)[i])
    {
      PlanHoldsMerged(nodes, edges, plan, i);
    }
  }

  lemma OtherMergeHolds(edges: seq<Edge>, other: Plan, k: NodeKey, e: Edge)
    requires other.n <= |edges| && other.n <= |other.rows| && other.k != k
    requires IsSourceOf(k, e) && Holds(edges, e)
    ensures Holds(Merged(edges, other), e)
  {
    var i :| 0 <= i < |edges| && Carries(edges[i], e);
    assert Merged(edges, other)[i] == edges[i];
  }

  lemma OtherMergeKeepsShows(nodes: Nodes, edges: seq<Edge>, other: Plan, plan: Plan)
    requires Shows(edges, plan) && PlanOk(nodes, edges, other) && other.k != plan.k
    ensures Shows(Merged(edges, other), plan)
  {
    var after := Merged(edges, other);
    forall j | 0 <= j < |plan.rows| && IsSourceOf(plan.k, plan.rows[j]) ensures Holds(after, plan.rows[j]) {
      OtherMergeHolds(edges, other, plan.k, plan.rows[j]);
    }
    forall i | |edges| <= i < |after| ensures !IsSourceOf(plan.k, after[i]) {
      assert NewRowOk(nodes, other.rows[i - |edges| + other.n], other.k);
    }
    forall i | 0 <= i < |edges| && IsSourceOf(plan.k, after[i]) ensures Holds(plan.rows, after[i]) {
      assert after[i] == edges[i];
    }
  }

  // Rows of a source that an earlier plan of the same transaction added are not plan's.
  lemma NoneAdded(nodes: Nodes, edges: seq<Edge>, plans: seq<Plan>, plan: Plan)
    requires StoreOk(nodes, edges) && PlansOk(nodes, edges, plans) && PlansHold(nodes, edges, plans)
    requires forall p | p in plans :: p.k != plan.k
    requires 0 <= plan.n <= |edges| && forall i | plan.n <= i < |edges| :: !IsSourceOf(plan.k, edges[i])
    ensures forall i | plan.n <= i < |MergedAll(edges, plans)| :: !IsSourceOf(plan.k, MergedAll(edges, plans)[i])
  {
    MergedAllKeepsStore(nodes, edges, plans);
    var after := MergedAll(edges, plans);
    NotFromOthers(edges, after, plans, plan.k);
    forall i | plan.n <= i < |edges| ensures !IsSourceOf(plan.k, after[i]) {
      assert SameEdge(edges[i], after[i]) && !IsSourceOf(plan.k, edges[i]);
    }
  }

  lemma LastMergeShows(nodes: Nodes, edges: seq<Edge>, last: Plan, plan: Plan)
    requires OneExtractor(edges) && PlanOk(nodes, edges, last)
    requires if last == plan then forall i | plan.n <= i < |edges| :: !IsSourceOf(plan.k, edges[i])
             else last.k != plan.k && Shows(edges, plan)
    ensures Shows(Merged(edges, last), plan)
  {
    if last == plan {
      MergedShows(nodes, edges, plan);
    } else {
      OtherMergeKeepsShows(nodes, edges, last, plan);
    }
  }

  lemma {:induction false} MergedAllShows(nodes: Nodes, edges: seq<Edge>, plans: seq<Plan>, plan: Plan)
    requires StoreOk(nodes, edges) && PlansOk(nodes, edges, plans) && PlansHold(nodes, edges, plans)
    requires plan in plans && forall i | plan.n <= i < |edges| :: !IsSourceOf(plan.k, edges[i])
    ensures Shows(MergedAll(edges, plans), plan)
  {
    var front, last := Front(plans), Last(plans);
    AllButLast(nodes, edges, plans);
    MergedAllKeepsStore(nodes, edges, front);
    var before := MergedAll(edges, front);
    PlanStaysOk(nodes, edges, nodes, before, last);
    if plan in front {
      MergedAllShows(nodes, edges, front, plan);
    } else {
      NoneAdded(nodes, edges, front, plan);
    }
    LastMergeShows(nodes, before, last, plan);
  }

  // If nobody added an edge to the source since the plan was made, merging leaves the source with
  // exactly the active edges planned.
  lemma MergeSetsSource(nodes: Nodes, edges: seq<Edge>, plans: seq<Plan>, plan: Plan, target: Id, kind: string)
    requires StoreOk(nodes, edges) && PlansOk(nodes, edges, plans) && PlansHold(nodes, edges, plans)
    requires plan in plans && forall i | plan.n <= i < |edges| :: !IsSourceOf(plan.k, edges[i])
    ensures ActiveEdge(MergedAll(edges, plans), plan.k.tenant, plan.k.resource, target, kind)
       <==> ActiveEdge(plan.rows, plan.k.tenant, plan.k.resource, target, kind)
  {
    MergedAllShows(nodes, edges, plans, plan);
    var after := MergedAll(edges, plans);
    if ActiveEdge(after, plan.k.tenant, plan.k.resource, target, kind) {
      HeldActiveEdge(after, plan.rows, plan.k, target, kind);
    }
    if ActiveEdge(plan.rows, plan.k.tenant, plan.k.resource, target, kind) {
      HeldActiveEdge(plan.rows, after, plan.k, target, kind);
    }
  }

  lemma HeldActiveEdge(edges: seq<Edge>, other: seq<Edge>, k: NodeKey, target: Id, kind: string)
    requires forall i | 0 <= i < |edges| && IsSourceOf(k, edges[i]) :: Holds(other, edges[i])
    requires ActiveEdge(edges, k.tenant, k.resource, target, kind)
    ensures ActiveEdge(other, k.tenant, k.resource, target, kind)
  {
    var i :| 0 <= i < |edges| && edges[i].active && edges[i].tenant == k.tenant && edges[i].source == k.resource
             && edges[i].target == target && edges[i].relationshipType == kind;
    assert IsSourceOf(k, edges[i]);
    var j :| 0 <= j < |other| && Carries(other[j], edges[i]);
    assert other[j].active;
  }

  lemma PlansReady(s: State, x: nat)
    requires Sound(s) && Enabled(s, Commit(x)) && !s.txns[x].Batch?
    ensures
      var nodes := Next(s, Commit(x)).nodes;
      && StoreOk(nodes, s.edges) && PlansOk(nodes, s.edges, s.txns[x].plans)
      && PlansHold(nodes, s.edges, s.txns[x].plans)
  {
    var t := s.txns[x];
    assert TxnOk(s, t);
    if t.Projecting? {
      ProjectionNeverConflicts(s.rows, s.nodes, t.p);
      UpsertKeepsStore(s.nodes, s.edges, t.p);
      forall plan | plan in t.plans ensures PlanOk(Upserted(s.nodes, t.p), s.edges, plan) {
        PlanStaysOk(s.nodes, s.edges, Upserted(s.nodes, t.p), s.edges, plan);
      }
    }
  }

  // Whatever else committed meanwhile: a commit leaves each source to which nobody added an edge
  // since its plan was made with exactly the active edges planned.
  lemma CommitSetsSource(s: State, x: nat, plan: Plan, target: Id, kind: string)
    requires Sound(s) && Enabled(s, Commit(x)) && !s.txns[x].Batch? && plan in s.txns[x].plans
    requires forall i | plan.n <= i < |s.edges| :: !IsSourceOf(plan.k, s.edges[i])
    ensures ActiveEdge(Next(s, Commit(x)).edges, plan.k.tenant, plan.k.resource, target, kind)
       <==> ActiveEdge(plan.rows, plan.k.tenant, plan.k.resource, target, kind)
  {
    PlansReady(s, x);
    MergeSetsSource(Next(s, Commit(x)).nodes, s.edges, s.txns[x].plans, plan, target, kind);
  }

  // A sweep whose plans are all made from the tables as they are can commit, and leaves the
  // tenant's edges as its properties call for.
  lemma LoneSweepReconciles(s: State, x: nat)
    requires Sound(s) && x in s.txns && s.txns[x].Sweep? && s.txns[x].listed == s.nodes
    requires forall plan | plan in s.txns[x].plans ::
               ToRebuild(s.txns[x], plan.k) && plan == PlanFor(s, s.txns[x], plan.k)
    requires forall r | Supported(s.nodes, s.txns[x].tenant, r) :: Planned(s.txns[x], NodeKey(s.txns[x].tenant, r))
    ensures Enabled(s, Commit(x))
    ensures Reconciled(Next(s, Commit(x)).nodes, Next(s, Commit(x)).edges, s.txns[x].tenant)
  {
    var t := s.txns[x];
    assert TxnOk(s, t);
    FreshPlansHold(s, t);
    forall k | k in t.listed && k.tenant == t.tenant && Supports(t.listed[k].resourceType) ensures Planned(t, k) {
      assert Supported(s.nodes, t.tenant, k.resource) && NodeKey(t.tenant, k.resource) == k;
    }
    var s' := Next(s, Commit(x));
    forall r | Supported(s'.nodes, t.tenant, r) ensures Agrees(s'.nodes, s'.edges, t.tenant, r) {
      var plan :| plan in t.plans && plan.k == NodeKey(t.tenant, r);
      RebuildAgrees(s.nodes, s.edges, t.tenant, r);
      forall target, kind
        ensures ActiveEdge(s'.edges, t.tenant, r, target, kind)
           <==> Refers(s'.nodes, t.tenant, r, target) && kind == KIND
      {
        CommitSetsSource(s, x, plan, target, kind);
      }
    }
  }

  lemma FreshPlansHold(s: State, t: Txn)
    requires t.Sweep? && TxnOk(s, t) && forall plan | plan in t.plans :: plan.n == |s.edges|
    ensures Fits(s, t) && KeysHold(s, t)
  {
    forall plan | plan in t.plans ensures PlanHolds(s.edges, plan) {
      assert PlanOk(s.nodes, s.edges, plan);
    }
  }

  // A batch can always take in another item: there is a row for it, found or new.
  lemma ItemsCanBeStored(s: State, x: nat, subscription: Id, item: Inventory.AzureItem, newId: Id, now: nat)
    returns (w: Write)
    requires x in s.txns && s.txns[x].Batch?
    requires newId !in s.rows
    requires forall y, v | y in s.txns && s.txns[y].Batch? && v in s.txns[y].writes :: v.id != newId
    ensures Enabled(s, StoreItem(x, w)) && w.subscription == subscription && w.item == item && w.now == now
  {
    var t := s.txns[x];
    if v :| v in t.writes && Lower(v.item.armId) == Lower(item.armId) {
      w := Write(subscription, item, v.id, now);
      assert SameArm(v, w);
    } else if a :| a in s.rows && Inventory.IsRowOf(s.rows, a, t.tenant, item.armId) {
      w := Write(subscription, item, a, now);
    } else {
      w := Write(subscription, item, newId, now);
    }
    assert RowFor(s, t.tenant, t.writes, w);
  }

  // What a transaction is about.
  lemma TouchedExactly(t: Txn, key: Key)
    ensures key in Touched(t) <==>
      match t
      case Batch(tenant, writes) =>
        key.ArmOf? && key.tenant == tenant
        && exists w :: w in writes && Lower(w.item.armId) == key.normalizedId
      case Projecting(p, _, _) => key.SourceOf? && key.k == NodeKey(p.tenant, p.resource)
      case Sweep(_, _, plans) => key.SourceOf? && exists plan :: plan in plans && plan.k == key.k
  {
  }
}
