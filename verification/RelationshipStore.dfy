/**
 The relationship repository and the two operations that feed it: projecting one resource, and
 rebuilding a tenant's whole edge table.
 */
module RelationshipStore {
  import opened Prelude
  import opened Text
  import opened Events
  import opened ArmReferences
  import opened Relationships

  datatype Projection = Projection(
    tenant: Id,
    resource: Id,
    azureId: string,
    name: string,
    resourceType: string,
    resourceGroup: string,
    properties: Json)
  {
    function Key(): NodeKey {
      NodeKey(tenant, resource)
    }
  }

  // ---------- what every reachable store satisfies ----------

  ghost predicate NodesOk(nodes: Nodes) {
    && UniqueArmIds(nodes)
    && forall k | k in nodes :: nodes[k].active && nodes[k].normalizedId == Lower(nodes[k].azureId)
  }

  // Both ends of every stored edge, active or not, are nodes of the edge's tenant.
  ghost predicate EndsExist(nodes: Nodes, edges: seq<Edge>) {
    forall i | 0 <= i < |edges| ::
      && NodeKey(edges[i].tenant, edges[i].source) in nodes
      && NodeKey(edges[i].tenant, edges[i].target) in nodes
      && edges[i].source != edges[i].target
  }

  ghost predicate StoreOk(nodes: Nodes, edges: seq<Edge>) {
    NodesOk(nodes) && UniqueEdges(edges) && OneExtractor(edges) && EndsExist(nodes, edges)
  }

  // ---------- upsert ----------

  // Another node of the tenant already has this ARM id: the insert breaks a unique key.
  predicate Conflicts(nodes: Nodes, p: Projection) {
    p.Key() !in nodes
    && exists k :: k in nodes && k.tenant == p.tenant && nodes[k].normalizedId == Lower(p.azureId)
  }

  function NodeFor(p: Projection): Node {
    Node(p.azureId, Lower(p.azureId), p.name, Lower(p.resourceType), p.resourceGroup, p.properties, true)
  }

  // An update leaves the ARM id that was stored first.
  function Upserted(nodes: Nodes, p: Projection): Nodes {
    if p.Key() in nodes
    then nodes[p.Key() := NodeFor(p).(azureId := nodes[p.Key()].azureId,
                                      normalizedId := nodes[p.Key()].normalizedId)]
    else nodes[p.Key() := NodeFor(p)]
  }

  lemma UpsertKeepsStore(nodes: Nodes, edges: seq<Edge>, p: Projection)
    requires StoreOk(nodes, edges) && !Conflicts(nodes, p)
    ensures StoreOk(Upserted(nodes, p), edges)
  {
  }

  lemma RebuildKeepsStore(nodes: Nodes, edges: seq<Edge>, tenant: Id, source: Id, candidates: seq<EdgeCandidate>)
    requires StoreOk(nodes, edges) && NodeKey(tenant, source) in nodes && OnePerTarget(candidates)
    ensures StoreOk(nodes, Rebuilt(nodes, edges, tenant, source, candidates))
  {
    var now := Rebuilt(nodes, edges, tenant, source, candidates);
    RebuiltKeepsKeys(nodes, edges, tenant, source, candidates);
    forall i: nat | i < |now|
      ensures NodeKey(now[i].tenant, now[i].source) in nodes && NodeKey(now[i].tenant, now[i].target) in nodes
      ensures now[i].source != now[i].target
    {
      if i < |edges| {
        RebuiltKeepsRows(nodes, edges, tenant, source, candidates, i);
      } else {
        var k := AddedRowHasCandidate(nodes, edges, tenant, source, candidates, i);
        ResolveNames(nodes, tenant, candidates[k].target);
      }
    }
  }

  // ---------- what the edge table should say ----------

  // Node s's properties reference node t.
  ghost predicate Refers(nodes: Nodes, tenant: Id, s: Id, t: Id) {
    && s != t && NodeKey(tenant, s) in nodes && NodeKey(tenant, t) in nodes
    && exists c :: c in Extracted(nodes[NodeKey(tenant, s)].properties)
         && c.target == nodes[NodeKey(tenant, t)].normalizedId
  }

  predicate Supported(nodes: Nodes, tenant: Id, s: Id) {
    NodeKey(tenant, s) in nodes && Supports(nodes[NodeKey(tenant, s)].resourceType)
  }

  // In terms of the JSON: some bounded path in s's properties leads to a spelling of t's id.
  lemma RefersByPath(nodes: Nodes, tenant: Id, s: Id, t: Id)
    requires NodeKey(tenant, s) in nodes && NodeKey(tenant, t) in nodes
    ensures Refers(nodes, tenant, s, t) <==>
      s != t && exists path, text ::
        References(nodes[NodeKey(tenant, s)].properties, path, text, 0)
        && Normalize(text) == nodes[NodeKey(tenant, t)].normalizedId
  {
    ExtractedExactly(nodes[NodeKey(tenant, s)].properties, nodes[NodeKey(tenant, t)].normalizedId);
  }

  // At most 12 steps into the properties, through the first 1000 elements of lists, `text` is an
  // ARM id and, white space at its ends apart, a spelling of `azureId` up to ASCII case.
  ghost predicate SpelledAt(properties: Json, path: seq<Selector>, text: string, azureId: string) {
    && |path| <= 12 && (forall k | 0 <= k < |path| :: path[k].Index? ==> path[k].index < 1000)
    && Leads(properties, path, String(text))
    && IsArmId(Lower(Strip(text))) && SameUpToCase(Strip(text), azureId)
  }

  // In the end: s refers to t exactly when its properties spell t's id somewhere.
  lemma RefersBySpelling(nodes: Nodes, tenant: Id, s: Id, t: Id)
    requires NodesOk(nodes) && NodeKey(tenant, s) in nodes && NodeKey(tenant, t) in nodes
    ensures Refers(nodes, tenant, s, t) <==>
      s != t && exists path, text ::
        SpelledAt(nodes[NodeKey(tenant, s)].properties, path, text, nodes[NodeKey(tenant, t)].azureId)
  {
    RefersByPath(nodes, tenant, s, t);
    var properties, azureId := nodes[NodeKey(tenant, s)].properties, nodes[NodeKey(tenant, t)].azureId;
    forall path, text
      ensures SpelledAt(properties, path, text, azureId)
         <==> References(properties, path, text, 0) && Normalize(text) == Lower(azureId)
    {
      LowerEqualExactly(Strip(text), azureId);
      QualifiesExactly(Normalize(text));
    }
  }

  const KIND := "references"

  lemma WantedIsReferred(nodes: Nodes, tenant: Id, s: Id, t: Id, kind: string)
    requires UniqueArmIds(nodes) && NodeKey(tenant, s) in nodes
    ensures (exists c :: c in Extracted(nodes[NodeKey(tenant, s)].properties) && Wanted(nodes, tenant, s, c, t, kind))
       <==> Refers(nodes, tenant, s, t) && kind == KIND
  {
    var found := Extracted(nodes[NodeKey(tenant, s)].properties);
    DictionaryOfHits(Hits(nodes[NodeKey(tenant, s)].properties, "$", 0));
    assert forall c | c in found :: c.relationshipType == KIND;
    if c :| c in found && Wanted(nodes, tenant, s, c, t, kind) {
      ResolveNames(nodes, tenant, c.target);
    }
    if Refers(nodes, tenant, s, t) && kind == KIND {
      var c :| c in found && c.target == nodes[NodeKey(tenant, t)].normalizedId;
      ResolveFinds(nodes, tenant, c.target, NodeKey(tenant, t));
      assert Wanted(nodes, tenant, s, c, t, kind);
    }
  }

  // The edge table agrees with the nodes, for one source.
  ghost predicate Agrees(nodes: Nodes, edges: seq<Edge>, tenant: Id, s: Id) {
    forall t, kind :: ActiveEdge(edges, tenant, s, t, kind) <==> Refers(nodes, tenant, s, t) && kind == KIND
  }

  lemma RebuildAgrees(nodes: Nodes, edges: seq<Edge>, tenant: Id, s: Id)
    requires StoreOk(nodes, edges) && NodeKey(tenant, s) in nodes
    ensures Agrees(nodes, Rebuilt(nodes, edges, tenant, s, Extracted(nodes[NodeKey(tenant, s)].properties)), tenant, s)
  {
    var found := Extracted(nodes[NodeKey(tenant, s)].properties);
    forall t, kind
      ensures ActiveEdge(Rebuilt(nodes, edges, tenant, s, found), tenant, s, t, kind)
         <==> Refers(nodes, tenant, s, t) && kind == KIND
    {
      RebuiltActivates(nodes, edges, tenant, s, found, tenant, s, t, kind);
      WantedIsReferred(nodes, tenant, s, t, kind);
    }
  }

  // The edge table after the extractor has been run over one node, if it supports the node's type.
  ghost function EdgesAfter(nodes: Nodes, edges: seq<Edge>, k: NodeKey): seq<Edge>
    requires k in nodes
  {
    if Supports(nodes[k].resourceType)
    then Rebuilt(nodes, edges, k.tenant, k.resource, Extracted(nodes[k].properties))
    else edges
  }

  lemma EdgesAfterKeepsStore(nodes: Nodes, edges: seq<Edge>, k: NodeKey)
    requires StoreOk(nodes, edges) && k in nodes
    ensures StoreOk(nodes, EdgesAfter(nodes, edges, k))
  {
    DictionaryOfHits(Hits(nodes[k].properties, "$", 0));
    RebuildKeepsStore(nodes, edges, k.tenant, k.resource, Extracted(nodes[k].properties));
  }

  // What an active edge of a rebuilt source says: it is a reference, and its evidence is the path
  // to a spelling of its target's id in the source's properties; when it is new, it is also a hard
  // one, certain, and signed by the extractor.
  lemma ActiveEdgesAreEvidenced(nodes: Nodes, edges: seq<Edge>, k: NodeKey, i: nat)
    returns (path: seq<Selector>, text: string)
    requires StoreOk(nodes, edges) && k in nodes && Supports(nodes[k].resourceType)
    requires i < |EdgesAfter(nodes, edges, k)| && EdgesAfter(nodes, edges, k)[i].active
    requires EdgesAfter(nodes, edges, k)[i].tenant == k.tenant && EdgesAfter(nodes, edges, k)[i].source == k.resource
    ensures
      var row := EdgesAfter(nodes, edges, k)[i];
      && NodeKey(k.tenant, row.target) in nodes
      && SpelledAt(nodes[k].properties, path, text, nodes[NodeKey(k.tenant, row.target)].azureId)
      && row.relationshipType == "references" && row.evidencePath == "$" + Render(path)
      && (i >= |edges| ==> row.dependencyStrength == "hard" && row.confidence == 1.0
                           && row.sourceSystem == "azure-resource-properties"
                           && row.extractorName == "arm-reference" && row.extractorVersion == "1.0.0")
  {
    EdgesAfterKeepsStore(nodes, edges, k);
    var found := Extracted(nodes[k].properties);
    var m := ActiveRowHasCandidate(nodes, edges, k.tenant, k.resource, found, i);
    CandidatesAreHardReferences(nodes[k].properties);
    path, text := EvidenceLeadsToTarget(nodes[k].properties, found[m]);
    ResolveNames(nodes, k.tenant, found[m].target);
    var target := EdgesAfter(nodes, edges, k)[i].target;
    LowerEqualExactly(Strip(text), nodes[NodeKey(k.tenant, target)].azureId);
    QualifiesExactly(Normalize(text));
  }

  // A second rebuild of a source whose edges already agree adds no row.
  lemma SecondRebuildAddsNothing(nodes: Nodes, edges: seq<Edge>, k: NodeKey)
    requires StoreOk(nodes, edges) && k in nodes && Agrees(nodes, edges, k.tenant, k.resource)
    ensures |EdgesAfter(nodes, edges, k)| == |edges|
  {
    var found := Extracted(nodes[k].properties);
    forall c, t | c in found && Wanted(nodes, k.tenant, k.resource, c, t, c.relationshipType)
      ensures Stored(edges, k.tenant, k.resource, t, c.relationshipType)
    {
      WantedIsReferred(nodes, k.tenant, k.resource, t, c.relationshipType);
      assert ActiveEdge(edges, k.tenant, k.resource, t, c.relationshipType);
    }
    if |EdgesAfter(nodes, edges, k)| > |edges| {
      var i := AddedRowHasCandidate(nodes, edges, k.tenant, k.resource, found, |edges|);
      assert false;
    }
  }

  // Rebuilding one source leaves the others as they were.
  ghost predicate SameElsewhere(before: seq<Edge>, after: seq<Edge>, tenant: Id, sources: set<Id>) {
    forall t, s, target, kind | !(t == tenant && s in sources) ::
      ActiveEdge(after, t, s, target, kind) <==> ActiveEdge(before, t, s, target, kind)
  }

  lemma RebuildLeavesOthers(nodes: Nodes, edges: seq<Edge>, tenant: Id, s: Id, candidates: seq<EdgeCandidate>)
    requires OneExtractor(edges)
    ensures SameElsewhere(edges, Rebuilt(nodes, edges, tenant, s, candidates), tenant, {s})
  {
    forall t, s', target, kind | !(t == tenant && s' in {s})
      ensures ActiveEdge(Rebuilt(nodes, edges, tenant, s, candidates), t, s', target, kind)
         <==> ActiveEdge(edges, t, s', target, kind)
    {
      RebuiltActivates(nodes, edges, tenant, s, candidates, t, s', target, kind);
    }
  }

  // No row is removed or renamed.
  ghost predicate RowsKept(before: seq<Edge>, after: seq<Edge>) {
    |before| <= |after| && forall i | 0 <= i < |before| :: SameEdge(before[i], after[i])
  }

  lemma RebuildKeepsAllRows(nodes: Nodes, edges: seq<Edge>, tenant: Id, s: Id, candidates: seq<EdgeCandidate>)
    ensures RowsKept(edges, Rebuilt(nodes, edges, tenant, s, candidates))
  {
    forall i: nat | i < |edges| ensures SameEdge(edges[i], Rebuilt(nodes, edges, tenant, s, candidates)[i]) {
      RebuiltKeepsRows(nodes, edges, tenant, s, candidates, i);
    }
  }

  // The whole table of one tenant agrees with its supported nodes.
  ghost predicate Reconciled(nodes: Nodes, edges: seq<Edge>, tenant: Id) {
    forall s | Supported(nodes, tenant, s) :: Agrees(nodes, edges, tenant, s)
  }

  // ---------- the repository ----------

  class Repository {
    var nodes: Nodes
    var edges: seq<Edge>

    constructor ()
      ensures Valid() && nodes == map[] && edges == []
    {
      nodes, edges := map[], [];
    }

    ghost predicate Valid()
      reads this
    {
      StoreOk(nodes, edges)
    }

    // False when the insert breaks the node table's second unique key; nothing changes then.
    method UpsertNode(p: Projection) returns (ok: bool)
      requires Valid()
      modifies this`nodes
      ensures Valid()
      ensures ok <==> !Conflicts(old(nodes), p)
      ensures nodes == if ok then Upserted(old(nodes), p) else old(nodes)
    {
      var key := p.Key();
      if key !in nodes {
        if exists k :: k in nodes && k.tenant == p.tenant && nodes[k].normalizedId == Lower(p.azureId) {
          return false;
        }
        UpsertKeepsStore(nodes, edges, p);
        nodes := nodes[key := Node(p.azureId, Lower(p.azureId), p.name, Lower(p.resourceType),
                                   p.resourceGroup, p.properties, true)];
      } else {
        UpsertKeepsStore(nodes, edges, p);
        var node := nodes[key];
        node := node.(name := p.name);
        node := node.(resourceType := Lower(p.resourceType));
        node := node.(resourceGroup := p.resourceGroup);
        node := node.(properties := p.properties);
        node := node.(active := true);
        nodes := nodes[key := node];
      }
      ok := true;
    }

    // Returns the number of rows added.
    method RebuildEdges(tenant: Id, source: Id, candidates: seq<EdgeCandidate>) returns (changed: nat)
      requires UniqueArmIds(nodes)
      modifies this`edges
      ensures edges == Rebuilt(nodes, old(edges), tenant, source, candidates)
      ensures changed == |edges| - |old(edges)|
    {
      var stored := |edges|;
      for i := 0 to stored
        invariant |edges| == stored
        invariant forall k | 0 <= k < i :: edges[k] == Deactivated(old(edges), tenant, source)[k]
        invariant forall k | i <= k < stored :: edges[k] == old(edges)[k]
      {
        if Current(edges[i], tenant, source) {
          edges := edges[i := edges[i].(active := false)];
        }
      }
      assert edges == Deactivated(old(edges), tenant, source);
      changed := 0;
      for k := 0 to |candidates|
        invariant edges == Rebuilt(nodes, old(edges), tenant, source, candidates[..k])
        invariant changed == |edges| - stored
      {
        var c := candidates[k];
        RebuiltOneMore(nodes, old(edges), tenant, source, candidates, k);
        if exists n :: n in nodes && n.tenant == tenant && nodes[n].normalizedId == c.target {
          var node :| node in nodes && node.tenant == tenant && nodes[node].normalizedId == c.target;
          ResolveFinds(nodes, tenant, c.target, node);
          var target := node.resource;
          if target != source {
            var row := FindRow(edges, stored, tenant, source, target, c.relationshipType);
            if row.None? {
              edges := edges + [NewEdge(tenant, source, target, c)];
              changed := changed + 1;
            } else {
              edges := edges[row.value := edges[row.value].(active := true, evidencePath := c.evidencePath)];
            }
          }
        }
      }
      assert candidates[..|candidates|] == candidates;
    }

    // None when the upsert failed; otherwise the number of edges added.
    method ProjectAndExtract(p: Projection) returns (changed: Option<nat>)
      requires Valid()
      modifies this
      ensures Valid()
      ensures changed.None? <==> Conflicts(old(nodes), p)
      ensures changed.None? ==> nodes == old(nodes) && edges == old(edges)
      ensures changed.Some? ==>
        && nodes == Upserted(old(nodes), p)
        && edges == EdgesAfter(nodes, old(edges), p.Key())
        && RowsKept(old(edges), edges) && changed.value == |edges| - |old(edges)|
        && SameElsewhere(old(edges), edges, p.tenant, {p.resource})
        && (if Supported(nodes, p.tenant, p.resource) then Agrees(nodes, edges, p.tenant, p.resource)
            else edges == old(edges))
    {
      var ok := UpsertNode(p);
      if !ok {
        return None;
      }
      var added := ExtractAndRebuild(p.Key());
      changed := Some(added);
    }

    // Runs the extractor over one node if it supports the node's type.
    method ExtractAndRebuild(k: NodeKey) returns (changed: nat)
      requires Valid() && k in nodes
      modifies this`edges
      ensures Valid()
      ensures edges == EdgesAfter(nodes, old(edges), k)
      ensures RowsKept(old(edges), edges) && changed == |edges| - |old(edges)|
      ensures SameElsewhere(old(edges), edges, k.tenant, {k.resource})
      ensures if Supports(nodes[k].resourceType) then Agrees(nodes, edges, k.tenant, k.resource)
              else edges == old(edges)
    {
      changed := 0;
      if Supports(nodes[k].resourceType) {
        var extractor := new ArmReferenceExtractor();
        var found := extractor.Extract(nodes[k].properties);
        DictionaryOfHits(Hits(nodes[k].properties, "$", 0));
        RebuildKeepsStore(nodes, edges, k.tenant, k.resource, found);
        RebuildAgrees(nodes, edges, k.tenant, k.resource);
        RebuildLeavesOthers(nodes, edges, k.tenant, k.resource, found);
        RebuildKeepsAllRows(nodes, edges, k.tenant, k.resource, found);
        changed := RebuildEdges(k.tenant, k.resource, found);
      }
    }

    // Afterwards, whatever the edge table held before and in whatever order the nodes are taken,
    // the tenant's supported sources have exactly the active edges their properties call for.
    method RebuildAll(tenant: Id) returns (changed: nat)
      requires Valid()
      modifies this`edges
      ensures Valid()
      ensures Reconciled(nodes, edges, tenant)
      ensures RowsKept(old(edges), edges) && changed == |edges| - |old(edges)|
      ensures SameElsewhere(old(edges), edges, tenant, SupportedSources(nodes, tenant))
    {
      changed := 0;
      var listed := set k | k in nodes && k.tenant == tenant && nodes[k].active;
      while listed != {}
        invariant forall k | k in listed :: k in nodes && k.tenant == tenant
        invariant Swept(nodes, old(edges), edges, tenant, listed)
        invariant changed == |edges| - |old(edges)|
        decreases |listed|
      {
        var k :| k in listed;
        ghost var before := edges;
        listed := listed - {k};
        var added := ExtractAndRebuild(k);
        changed := changed + added;
        SweepOne(nodes, old(edges), before, edges, tenant, listed, k);
      }
    }
  }

  function SupportedSources(nodes: Nodes, tenant: Id): set<Id> {
    set k | k in nodes && Supported(nodes, tenant, k.resource) :: k.resource
  }

  // A sweep over the tenant's nodes that has still to visit the nodes in `left`.
  ghost predicate Swept(nodes: Nodes, start: seq<Edge>, edges: seq<Edge>, tenant: Id, left: set<NodeKey>) {
    && StoreOk(nodes, edges) && RowsKept(start, edges)
    && (forall s | Supported(nodes, tenant, s) && NodeKey(tenant, s) !in left :: Agrees(nodes, edges, tenant, s))
    && SameElsewhere(start, edges, tenant, SupportedSources(nodes, tenant))
  }

  lemma SweepOne(nodes: Nodes, start: seq<Edge>, before: seq<Edge>, after: seq<Edge>, tenant: Id,
                 left: set<NodeKey>, k: NodeKey)
    requires k in nodes && k.tenant == tenant && Swept(nodes, start, before, tenant, left + {k})
    requires StoreOk(nodes, after) && RowsKept(before, after) && SameElsewhere(before, after, tenant, {k.resource})
    requires if Supports(nodes[k].resourceType) then Agrees(nodes, after, tenant, k.resource) else after == before
    ensures Swept(nodes, start, after, tenant, left)
  {
    RowsStillKept(start, before, after);
    if Supports(nodes[k].resourceType) {
      assert k == NodeKey(tenant, k.resource);
      assert k.resource in SupportedSources(nodes, tenant);
      StillSameElsewhere(start, before, after, tenant, SupportedSources(nodes, tenant), k.resource);
      OthersStillAgree(nodes, before, after, tenant, k.resource);
    }
  }

  lemma RowsStillKept(a: seq<Edge>, b: seq<Edge>, c: seq<Edge>)
    requires RowsKept(a, b) && RowsKept(b, c)
    ensures RowsKept(a, c)
  {
    forall i | 0 <= i < |a| ensures SameEdge(a[i], c[i]) {
      assert SameEdge(a[i], b[i]) && SameEdge(b[i], c[i]);
    }
  }

  lemma StillSameElsewhere(a: seq<Edge>, b: seq<Edge>, c: seq<Edge>, tenant: Id, sources: set<Id>, s: Id)
    requires SameElsewhere(a, b, tenant, sources) && SameElsewhere(b, c, tenant, {s}) && s in sources
    ensures SameElsewhere(a, c, tenant, sources)
  {
  }

  lemma StillAgrees(nodes: Nodes, before: seq<Edge>, after: seq<Edge>, tenant: Id, s: Id, other: Id)
    requires Agrees(nodes, before, tenant, s) && SameElsewhere(before, after, tenant, {other}) && s != other
    ensures Agrees(nodes, after, tenant, s)
  {
  }

  lemma OthersStillAgree(nodes: Nodes, before: seq<Edge>, after: seq<Edge>, tenant: Id, other: Id)
    requires SameElsewhere(before, after, tenant, {other})
    ensures forall s | s != other && Agrees(nodes, before, tenant, s) :: Agrees(nodes, after, tenant, s)
  {
    forall s | s != other && Agrees(nodes, before, tenant, s) ensures Agrees(nodes, after, tenant, s) {
      StillAgrees(nodes, before, after, tenant, s, other);
    }
  }

  // ---------- what the store alone does not promise ----------

  // Projections as they arrive; one that breaks a unique key is refused.
  function Arrived(nodes: Nodes, ps: seq<Projection>): Nodes {
    if ps == [] then nodes
    else
      var before := Arrived(nodes, Front(ps));
      if Conflicts(before, Last(ps)) then before else Upserted(before, Last(ps))
  }

  // Of two resources with one ARM id the first to arrive keeps the other out, so the order of
  // arrival matters unless the sender keeps ids and ARM ids one to one, as the inventory does.
  lemma RefusalDependsOnOrder(p: Projection, q: Projection)
    requires p.tenant == q.tenant && p.resource != q.resource && Lower(p.azureId) == Lower(q.azureId)
    ensures Arrived(map[], [p, q]) == map[p.Key() := NodeFor(p)]
    ensures Arrived(map[], [q, p]) == map[q.Key() := NodeFor(q)]
  {
    FirstKeepsOut(p, q);
    FirstKeepsOut(q, p);
  }

  lemma FirstKeepsOut(p: Projection, q: Projection)
    requires p.tenant == q.tenant && p.resource != q.resource && Lower(p.azureId) == Lower(q.azureId)
    ensures Arrived(map[], [p, q]) == map[p.Key() := NodeFor(p)]
  {
    assert Front([p, q]) == [p] && Front([p]) == [];
    var none: Nodes := map[];
    assert Arrived(none, []) == none && !Conflicts(none, p);
    var one := Arrived(none, [p]);
    assert one == map[p.Key() := NodeFor(p)];
    assert p.Key() in one && one[p.Key()].normalizedId == Lower(q.azureId);
  }

  // A source whose type stops being supported keeps the active edges it had, whatever its new
  // properties say, also when everything is rebuilt.
  lemma UnsupportedKeepsEdges(nodes: Nodes, edges: seq<Edge>, p: Projection, rebuilt: seq<Edge>)
    requires !Supports(Lower(p.resourceType))
    requires
      var after := Upserted(nodes, p);
      SameElsewhere(EdgesAfter(after, edges, p.Key()), rebuilt, p.tenant, SupportedSources(after, p.tenant))
    ensures forall t, kind ::
      ActiveEdge(rebuilt, p.tenant, p.resource, t, kind) <==> ActiveEdge(edges, p.tenant, p.resource, t, kind)
  {
    var after := Upserted(nodes, p);
    assert !Supported(after, p.tenant, p.resource);
  }

  // So after any rebuild it agrees with its properties exactly when the edges it had before the
  // projection are already the ones that its new properties call for.
  lemma UnsupportedAgreesExactly(nodes: Nodes, edges: seq<Edge>, p: Projection, rebuilt: seq<Edge>)
    requires !Supports(Lower(p.resourceType))
    requires
      var after := Upserted(nodes, p);
      SameElsewhere(EdgesAfter(after, edges, p.Key()), rebuilt, p.tenant, SupportedSources(after, p.tenant))
    ensures Agrees(Upserted(nodes, p), rebuilt, p.tenant, p.resource)
       <==> Agrees(Upserted(nodes, p), edges, p.tenant, p.resource)
  {
    UnsupportedKeepsEdges(nodes, edges, p, rebuilt);
  }

  // Two projections of one source, the first supported and referring to t, the second unsupported
  // and without any reference, leave an edge that nothing calls for and that no rebuild removes.
  lemma StaleEdgeOfUnsupportedSource(nodes: Nodes, edges: seq<Edge>, first: Projection, second: Projection, t: Id,
                                     rebuilt: seq<Edge>)
    requires StoreOk(nodes, edges) && !Conflicts(nodes, first) && first.Key() == second.Key()
    requires Supports(Lower(first.resourceType)) && !Supports(Lower(second.resourceType))
    requires Refers(Upserted(nodes, first), first.tenant, first.resource, t)
    requires Extracted(second.properties) == []
    requires
      var nodes1 := Upserted(nodes, first);
      var nodes2 := Upserted(nodes1, second);
      SameElsewhere(EdgesAfter(nodes2, EdgesAfter(nodes1, edges, first.Key()), second.Key()), rebuilt,
                    second.tenant, SupportedSources(nodes2, second.tenant))
    ensures ActiveEdge(rebuilt, first.tenant, first.resource, t, KIND)
    ensures !Refers(Upserted(Upserted(nodes, first), second), first.tenant, first.resource, t)
    ensures !Agrees(Upserted(Upserted(nodes, first), second), rebuilt, first.tenant, first.resource)
  {
    var nodes1 := Upserted(nodes, first);
    UpsertKeepsStore(nodes, edges, first);
    RebuildAgrees(nodes1, edges, first.tenant, first.resource);
    var edges1 := EdgesAfter(nodes1, edges, first.Key());
    assert ActiveEdge(edges1, first.tenant, first.resource, t, KIND);
    UnsupportedKeepsEdges(nodes1, edges1, second, rebuilt);
    assert !Refers(Upserted(nodes1, second), first.tenant, first.resource, t);
  }

  // Such projections exist: a resource whose only property is the id of another one, and then the
  // same resource with another type and no property.
  lemma StaleEdgeWitness(tenant: Id, s: Id, t: Id, text: string)
    returns (nodes: Nodes, first: Projection, second: Projection)
    requires s != t && Qualifies(Normalize(text))
    ensures StoreOk(nodes, []) && !Conflicts(nodes, first) && first.Key() == second.Key() == NodeKey(tenant, s)
    ensures Supports(Lower(first.resourceType)) && !Supports(Lower(second.resourceType))
    ensures Refers(Upserted(nodes, first), tenant, s, t)
    ensures first.properties == Object([("id", String(text))])
    ensures second.properties == Object([]) && Extracted(second.properties) == []
  {
    var target := Projection(tenant, t, Strip(text), "", "", "", Object([]));
    nodes := map[target.Key() := NodeFor(target)];
    first := Projection(tenant, s, "", "", "microsoft.", "", Object([("id", String(text))]));
    second := Projection(tenant, s, "", "", "", "", Object([]));
    assert Lower("microsoft.") == "microsoft.";
    assert Lower("") == "";
    IdPropertyIsReference(text);
    RefersByPath(Upserted(nodes, first), tenant, s, t);
    assert FieldHits([], "$", 0) == [];
  }

  lemma IdPropertyIsReference(text: string)
    requires Qualifies(Normalize(text))
    ensures References(Object([("id", String(text))]), [Key("id")], text, 0)
  {
    var path := [Key("id")];
    assert Selects(Object([("id", String(text))]), path[0], String(text));
    assert path[1..] == [] && Leads(String(text), [], String(text));
    assert Leads(Object([("id", String(text))]), path, String(text));
  }
}
