/**
 The relationship tables as values: what one rebuild does to the edge table, and why no edge is
 ever stored twice.
 */
module Relationships {
  import opened Prelude
  import opened ArmReferences
  import opened Events

  const SOURCE_SYSTEM := "azure-resource-properties"

  // (tenant, inventory resource id): the first unique key of the node table.
  datatype NodeKey = NodeKey(tenant: Id, resource: Id)

  datatype Node = Node(
    azureId: string,
    normalizedId: string,
    name: string,
    resourceType: string,
    resourceGroup: string,
    properties: Json,
    active: bool)

  type Nodes = map<NodeKey, Node>

  datatype Edge = Edge(
    tenant: Id,
    source: Id,
    target: Id,
    relationshipType: string,
    sourceSystem: string,
    dependencyStrength: string,
    confidence: real,
    evidencePath: string,
    extractorName: string,
    extractorVersion: string,
    active: bool)

  // The unique key of the edge table.
  predicate SameEdge(a: Edge, b: Edge) {
    && a.tenant == b.tenant && a.source == b.source && a.target == b.target
    && a.relationshipType == b.relationshipType && a.sourceSystem == b.sourceSystem
  }

  ghost predicate UniqueEdges(edges: seq<Edge>) {
    forall i, j | 0 <= i < j < |edges| :: !SameEdge(edges[i], edges[j])
  }

  // The second unique key of the node table: (tenant, normalised ARM id).
  ghost predicate UniqueArmIds(nodes: Nodes) {
    forall k, m | k in nodes && m in nodes ::
      k.tenant == m.tenant && nodes[k].normalizedId == nodes[m].normalizedId ==> k == m
  }

  ghost predicate OneExtractor(edges: seq<Edge>) {
    forall i | 0 <= i < |edges| ::
      edges[i].extractorName == EXTRACTOR_NAME && edges[i].sourceSystem == SOURCE_SYSTEM
  }

  // ---------- one rebuild ----------

  // The node whose normalised id is `target`, if any.
  ghost function Resolve(nodes: Nodes, tenant: Id, target: string): Option<Id> {
    if exists k :: k in nodes && k.tenant == tenant && nodes[k].normalizedId == target
    then
      var k :| k in nodes && k.tenant == tenant && nodes[k].normalizedId == target;
      Some(k.resource)
    else None
  }

  lemma ResolveFinds(nodes: Nodes, tenant: Id, target: string, k: NodeKey)
    requires UniqueArmIds(nodes) && k in nodes && k.tenant == tenant && nodes[k].normalizedId == target
    ensures Resolve(nodes, tenant, target) == Some(k.resource)
  {
  }

  // A row that this rebuild of (tenant, source) governs.
  predicate Current(e: Edge, tenant: Id, source: Id) {
    e.tenant == tenant && e.source == source && e.extractorName == EXTRACTOR_NAME
  }

  predicate Matches(e: Edge, tenant: Id, source: Id, target: Id, kind: string) {
    Current(e, tenant, source) && e.target == target && e.relationshipType == kind
  }

  function Deactivated(edges: seq<Edge>, tenant: Id, source: Id): (r: seq<Edge>)
    ensures |r| == |edges|
  {
    seq(|edges|, i requires 0 <= i < |edges| =>
      if Current(edges[i], tenant, source) then edges[i].(active := false) else edges[i])
  }

  // The first of the first n rows that matches.
  function FindRow(edges: seq<Edge>, n: nat, tenant: Id, source: Id, target: Id, kind: string): (r: Option<nat>)
    requires n <= |edges|
    ensures r.Some? ==> r.value < n && Matches(edges[r.value], tenant, source, target, kind)
    ensures r.None? ==> forall i :: 0 <= i < n ==> !Matches(edges[i], tenant, source, target, kind)
  {
    if n == 0 then None
    else
      var earlier := FindRow(edges, n - 1, tenant, source, target, kind);
      if earlier.Some? then earlier
      else if Matches(edges[n - 1], tenant, source, target, kind) then Some(n - 1) else None
  }

  function NewEdge(tenant: Id, source: Id, target: Id, c: EdgeCandidate): Edge {
    Edge(tenant, source, target, c.relationshipType, SOURCE_SYSTEM, c.dependencyStrength, c.confidence,
         c.evidencePath, EXTRACTOR_NAME, EXTRACTOR_VERSION, true)
  }

  // One candidate: reactivate the matching row among the first n, or append a new one.  Rows
  // appended during this rebuild are not searched.
  ghost function Observed(nodes: Nodes, edges: seq<Edge>, n: nat, tenant: Id, source: Id, c: EdgeCandidate): seq<Edge>
    requires n <= |edges|
  {
    match Resolve(nodes, tenant, c.target)
    case None => edges
    case Some(target) =>
      if target == source then edges
      else
        match FindRow(edges, n, tenant, source, target, c.relationshipType)
        case Some(i) => edges[i := edges[i].(active := true, evidencePath := c.evidencePath)]
        case None => edges + [NewEdge(tenant, source, target, c)]
  }

  ghost function Rebuilt(nodes: Nodes, edges: seq<Edge>, tenant: Id, source: Id,
                         candidates: seq<EdgeCandidate>): (r: seq<Edge>)
    ensures |r| >= |edges|
  {
    if candidates == [] then Deactivated(edges, tenant, source)
    else Observed(nodes, Rebuilt(nodes, edges, tenant, source, Front(candidates)), |edges|,
                  tenant, source, Last(candidates))
  }

  lemma RebuiltOneMore(nodes: Nodes, edges: seq<Edge>, tenant: Id, source: Id, candidates: seq<EdgeCandidate>, k: nat)
    requires k < |candidates|
    ensures Rebuilt(nodes, edges, tenant, source, candidates[..k + 1])
         == Observed(nodes, Rebuilt(nodes, edges, tenant, source, candidates[..k]), |edges|,
                     tenant, source, candidates[k])
  {
    assert Front(candidates[..k + 1]) == candidates[..k];
  }

  // ---------- which edges are active afterwards ----------

  ghost predicate ActiveEdge(edges: seq<Edge>, tenant: Id, source: Id, target: Id, kind: string) {
    exists i :: 0 <= i < |edges| && edges[i].active && edges[i].tenant == tenant
      && edges[i].source == source && edges[i].target == target && edges[i].relationshipType == kind
  }

  ghost predicate Wanted(nodes: Nodes, tenant: Id, source: Id, c: EdgeCandidate, target: Id, kind: string) {
    Resolve(nodes, tenant, c.target) == Some(target) && target != source && c.relationshipType == kind
  }

  // Row i keeps its identity; only `active` and the evidence may change, and only for governed rows.
  ghost predicate KeepsRow(before: Edge, after: Edge, tenant: Id, source: Id) {
    && after == before.(active := after.active, evidencePath := after.evidencePath)
    && (!Current(before, tenant, source) ==> after == before)
  }

  lemma ObservedActivates(nodes: Nodes, edges: seq<Edge>, n: nat, tenant: Id, source: Id, c: EdgeCandidate,
                          t: Id, s: Id, target: Id, kind: string)
    requires n <= |edges|
    ensures ActiveEdge(Observed(nodes, edges, n, tenant, source, c), t, s, target, kind)
       <==> ActiveEdge(edges, t, s, target, kind)
            || (t == tenant && s == source && Wanted(nodes, tenant, source, c, target, kind))
  {
    var after := Observed(nodes, edges, n, tenant, source, c);
    if after != edges {
      var found := Resolve(nodes, tenant, c.target).value;
      var row := FindRow(edges, n, tenant, source, found, c.relationshipType);
      var at := if row.Some? then row.value else |edges|;
      assert after[at].active && Matches(after[at], tenant, source, found, c.relationshipType);
      assert forall i | 0 <= i < |edges| :: i != at ==> after[i] == edges[i];
      if ActiveEdge(edges, t, s, target, kind) {
        var i :| 0 <= i < |edges| && edges[i].active && edges[i].tenant == t && edges[i].source == s
                 && edges[i].target == target && edges[i].relationshipType == kind;
        assert after[i].active && after[i].target == target;
      }
    } else if Wanted(nodes, tenant, source, c, target, kind) {
      var row := FindRow(edges, n, tenant, source, target, c.relationshipType);
      assert after[row.value].active;
    }
  }

  lemma DeactivatedActivates(edges: seq<Edge>, tenant: Id, source: Id, t: Id, s: Id, target: Id, kind: string)
    requires OneExtractor(edges)
    ensures ActiveEdge(Deactivated(edges, tenant, source), t, s, target, kind)
       <==> ActiveEdge(edges, t, s, target, kind) && !(t == tenant && s == source)
  {
    var after := Deactivated(edges, tenant, source);
    if i :| 0 <= i < |edges| && edges[i].active && edges[i].tenant == t && edges[i].source == s
            && edges[i].target == target && edges[i].relationshipType == kind && !(t == tenant && s == source)
    {
      assert after[i] == edges[i];
    }
    if i :| 0 <= i < |after| && after[i].active && after[i].tenant == t && after[i].source == s
            && after[i].target == target && after[i].relationshipType == kind
    {
      assert after[i] == edges[i];
    }
  }

  // After a rebuild the source's active edges are exactly those its candidates resolve to, and
  // the active edges of every other source are what they were.
  lemma {:induction false} RebuiltActivates(nodes: Nodes, edges: seq<Edge>, tenant: Id, source: Id,
                                            candidates: seq<EdgeCandidate>, t: Id, s: Id, target: Id, kind: string)
    requires OneExtractor(edges)
    ensures ActiveEdge(Rebuilt(nodes, edges, tenant, source, candidates), t, s, target, kind)
       <==> if t == tenant && s == source
            then exists c :: c in candidates && Wanted(nodes, tenant, source, c, target, kind)
            else ActiveEdge(edges, t, s, target, kind)
  {
    if candidates == [] {
      DeactivatedActivates(edges, tenant, source, t, s, target, kind);
    } else {
      var front, last := Front(candidates), Last(candidates);
      RebuiltActivates(nodes, edges, tenant, source, front, t, s, target, kind);
      ObservedActivates(nodes, Rebuilt(nodes, edges, tenant, source, front), |edges|, tenant, source, last,
                        t, s, target, kind);
      assert forall c :: c in candidates <==> c in front || c == last;
    }
  }

  // ---------- rows are reused, never renamed ----------

  // Row i's target and kind were already stored for this source before the rebuild.
  ghost predicate Stored(edges: seq<Edge>, tenant: Id, source: Id, target: Id, kind: string) {
    exists i :: 0 <= i < |edges| && Matches(edges[i], tenant, source, target, kind)
  }

  // This candidate makes the rebuild add a row.
  ghost predicate Adds(nodes: Nodes, edges: seq<Edge>, tenant: Id, source: Id, c: EdgeCandidate, target: Id) {
    && Resolve(nodes, tenant, c.target) == Some(target) && target != source
    && !Stored(edges, tenant, source, target, c.relationshipType)
  }

  lemma {:induction false} RebuiltKeepsRows(nodes: Nodes, edges: seq<Edge>, tenant: Id, source: Id,
                                            candidates: seq<EdgeCandidate>, i: nat)
    requires i < |edges|
    ensures KeepsRow(edges[i], Rebuilt(nodes, edges, tenant, source, candidates)[i], tenant, source)
  {
    if candidates != [] {
      RebuiltKeepsRows(nodes, edges, tenant, source, Front(candidates), i);
    }
  }

  // The rows found among the first |edges| are the same before and during the rebuild.
  lemma FoundAsStored(nodes: Nodes, edges: seq<Edge>, tenant: Id, source: Id, candidates: seq<EdgeCandidate>,
                      target: Id, kind: string)
    ensures FindRow(Rebuilt(nodes, edges, tenant, source, candidates), |edges|, tenant, source, target, kind).Some?
       <==> Stored(edges, tenant, source, target, kind)
  {
    var now := Rebuilt(nodes, edges, tenant, source, candidates);
    forall i: nat | i < |edges| ensures KeepsRow(edges[i], now[i], tenant, source) {
      RebuiltKeepsRows(nodes, edges, tenant, source, candidates, i);
    }
    assert forall i | 0 <= i < |edges| ::
      Matches(now[i], tenant, source, target, kind) <==> Matches(edges[i], tenant, source, target, kind);
  }

  // The row that the last candidate touches, if it touches one.
  lemma ObservedShape(nodes: Nodes, edges: seq<Edge>, tenant: Id, source: Id, candidates: seq<EdgeCandidate>)
    requires candidates != []
    ensures
      var before := Rebuilt(nodes, edges, tenant, source, Front(candidates));
      var now := Rebuilt(nodes, edges, tenant, source, candidates);
      var last := Last(candidates);
      && |before| <= |now| <= |before| + 1
      && (forall i | |edges| <= i < |before| :: now[i] == before[i])
      && (|now| == |before| + 1 <==> exists target :: Adds(nodes, edges, tenant, source, last, target))
      && (forall target | Adds(nodes, edges, tenant, source, last, target) ::
            now == before + [NewEdge(tenant, source, target, last)])
  {
    var front, last := Front(candidates), Last(candidates);
    match Resolve(nodes, tenant, last.target)
    case None =>
    case Some(target) =>
      FoundAsStored(nodes, edges, tenant, source, front, target, last.relationshipType);
      assert target != source && !Stored(edges, tenant, source, target, last.relationshipType)
        <==> Adds(nodes, edges, tenant, source, last, target);
  }

  // Each added row comes from a candidate that adds ...
  lemma {:induction false} AddedRowHasCandidate(nodes: Nodes, edges: seq<Edge>, tenant: Id, source: Id,
                                                candidates: seq<EdgeCandidate>, i: nat) returns (k: nat)
    requires |edges| <= i < |Rebuilt(nodes, edges, tenant, source, candidates)|
    ensures k < |candidates|
    ensures
      var row := Rebuilt(nodes, edges, tenant, source, candidates)[i];
      Adds(nodes, edges, tenant, source, candidates[k], row.target)
      && row == NewEdge(tenant, source, row.target, candidates[k])
  {
    ObservedShape(nodes, edges, tenant, source, candidates);
    if i < |Rebuilt(nodes, edges, tenant, source, Front(candidates))| {
      k := AddedRowHasCandidate(nodes, edges, tenant, source, Front(candidates), i);
    } else {
      k := |candidates| - 1;
    }
  }

  // ... and each such candidate has a row.
  lemma {:induction false} AddingCandidateHasRow(nodes: Nodes, edges: seq<Edge>, tenant: Id, source: Id,
                                                 candidates: seq<EdgeCandidate>, k: nat, target: Id) returns (i: nat)
    requires k < |candidates| && Adds(nodes, edges, tenant, source, candidates[k], target)
    ensures |edges| <= i < |Rebuilt(nodes, edges, tenant, source, candidates)|
    ensures Rebuilt(nodes, edges, tenant, source, candidates)[i] == NewEdge(tenant, source, target, candidates[k])
  {
    ObservedShape(nodes, edges, tenant, source, candidates);
    if k < |candidates| - 1 {
      i := AddingCandidateHasRow(nodes, edges, tenant, source, Front(candidates), k, target);
    } else {
      i := |Rebuilt(nodes, edges, tenant, source, Front(candidates))|;
    }
  }

  // Each active row of the source is what a candidate calls for, and carries its evidence; a row
  // that was added carries all that the candidate says.
  lemma {:induction false} ActiveRowHasCandidate(nodes: Nodes, edges: seq<Edge>, tenant: Id, source: Id,
                                                 candidates: seq<EdgeCandidate>, i: nat) returns (k: nat)
    requires i < |Rebuilt(nodes, edges, tenant, source, candidates)|
    requires Rebuilt(nodes, edges, tenant, source, candidates)[i].active
    requires Current(Rebuilt(nodes, edges, tenant, source, candidates)[i], tenant, source)
    ensures k < |candidates|
    ensures
      var row := Rebuilt(nodes, edges, tenant, source, candidates)[i];
      var c := candidates[k];
      && Wanted(nodes, tenant, source, c, row.target, row.relationshipType) && row.evidencePath == c.evidencePath
      && (i >= |edges| ==> row.dependencyStrength == c.dependencyStrength && row.confidence == c.confidence
                           && row.sourceSystem == "azure-resource-properties"
                           && row.extractorName == "arm-reference" && row.extractorVersion == "1.0.0")
  {
    if candidates == [] {
      assert false;
    } else {
      var before := Rebuilt(nodes, edges, tenant, source, Front(candidates));
      var now := Rebuilt(nodes, edges, tenant, source, candidates);
      if i < |before| && now[i] == before[i] {
        k := ActiveRowHasCandidate(nodes, edges, tenant, source, Front(candidates), i);
      } else {
        k := |candidates| - 1;
        TouchedRow(nodes, edges, before, tenant, source, Last(candidates), i);
      }
    }
  }

  lemma TouchedRow(nodes: Nodes, edges: seq<Edge>, before: seq<Edge>, tenant: Id, source: Id, c: EdgeCandidate, i: nat)
    requires |edges| <= |before| && i < |Observed(nodes, before, |edges|, tenant, source, c)|
    requires i < |before| ==> Observed(nodes, before, |edges|, tenant, source, c)[i] != before[i]
    ensures
      var row := Observed(nodes, before, |edges|, tenant, source, c)[i];
      && Wanted(nodes, tenant, source, c, row.target, row.relationshipType) && row.evidencePath == c.evidencePath
      && (i >= |edges| ==> row == NewEdge(tenant, source, row.target, c))
  {
  }

  // Two candidates would each add a row for the same edge.
  ghost predicate Clash(nodes: Nodes, edges: seq<Edge>, tenant: Id, source: Id, c: EdgeCandidate, d: EdgeCandidate) {
    exists target :: Adds(nodes, edges, tenant, source, c, target) && Adds(nodes, edges, tenant, source, d, target)
      && c.relationshipType == d.relationshipType
  }

  ghost predicate NoClash(nodes: Nodes, edges: seq<Edge>, tenant: Id, source: Id, candidates: seq<EdgeCandidate>) {
    forall i, j | 0 <= i < j < |candidates| :: !Clash(nodes, edges, tenant, source, candidates[i], candidates[j])
  }

  // An added row differs in key from every row that was there before.
  lemma AddedRowIsNew(nodes: Nodes, edges: seq<Edge>, tenant: Id, source: Id, candidates: seq<EdgeCandidate>,
                      i: nat, row: Edge)
    requires OneExtractor(edges) && i < |edges|
    requires row.tenant == tenant && row.source == source
    requires !Stored(edges, tenant, source, row.target, row.relationshipType)
    ensures !SameEdge(Rebuilt(nodes, edges, tenant, source, candidates)[i], row)
  {
    RebuiltKeepsRows(nodes, edges, tenant, source, candidates, i);
    assert !Matches(edges[i], tenant, source, row.target, row.relationshipType);
  }

  lemma {:induction false} UniqueWhenNoClash(nodes: Nodes, edges: seq<Edge>, tenant: Id, source: Id,
                                             candidates: seq<EdgeCandidate>)
    requires OneExtractor(edges) && UniqueEdges(edges) && NoClash(nodes, edges, tenant, source, candidates)
    ensures UniqueEdges(Rebuilt(nodes, edges, tenant, source, candidates))
  {
    var now := Rebuilt(nodes, edges, tenant, source, candidates);
    if candidates != [] {
      var front, last := Front(candidates), Last(candidates);
      var before := Rebuilt(nodes, edges, tenant, source, front);
      UniqueWhenNoClash(nodes, edges, tenant, source, front);
      ObservedShape(nodes, edges, tenant, source, candidates);
      if target :| Adds(nodes, edges, tenant, source, last, target) {
        forall i: nat | i < |before| ensures !SameEdge(before[i], Last(now)) {
          if i < |edges| {
            AddedRowIsNew(nodes, edges, tenant, source, front, i, Last(now));
          } else {
            var k := AddedRowHasCandidate(nodes, edges, tenant, source, front, i);
            assert !Clash(nodes, edges, tenant, source, candidates[k], candidates[|candidates| - 1]);
          }
        }
      } else {
        forall i, j | 0 <= i < j < |now| ensures !SameEdge(now[i], now[j]) {
          assert !SameEdge(before[i], before[j]);
        }
      }
    }
  }

  lemma ClashDuplicates(nodes: Nodes, edges: seq<Edge>, tenant: Id, source: Id,
                        candidates: seq<EdgeCandidate>, j: nat, k: nat)
    requires j < k < |candidates| && Clash(nodes, edges, tenant, source, candidates[j], candidates[k])
    ensures !UniqueEdges(Rebuilt(nodes, edges, tenant, source, candidates))
  {
    var now := Rebuilt(nodes, edges, tenant, source, candidates);
    var target :| Adds(nodes, edges, tenant, source, candidates[j], target)
      && Adds(nodes, edges, tenant, source, candidates[k], target);
    var a, b := ClashingRows(nodes, edges, tenant, source, candidates, j, k, target);
    assert SameEdge(now[a], now[b]);
  }

  // The two clashing candidates add two different rows.
  lemma {:induction false} ClashingRows(nodes: Nodes, edges: seq<Edge>, tenant: Id, source: Id,
                                        candidates: seq<EdgeCandidate>, j: nat, k: nat, target: Id)
    returns (a: nat, b: nat)
    requires j < k < |candidates|
    requires Adds(nodes, edges, tenant, source, candidates[j], target)
    requires Adds(nodes, edges, tenant, source, candidates[k], target)
    ensures a < b < |Rebuilt(nodes, edges, tenant, source, candidates)|
    ensures Rebuilt(nodes, edges, tenant, source, candidates)[a] == NewEdge(tenant, source, target, candidates[j])
    ensures Rebuilt(nodes, edges, tenant, source, candidates)[b] == NewEdge(tenant, source, target, candidates[k])
  {
    ObservedShape(nodes, edges, tenant, source, candidates);
    if k < |candidates| - 1 {
      a, b := ClashingRows(nodes, edges, tenant, source, Front(candidates), j, k, target);
      assert |edges| <= a by {
        if a < |edges| {
          RebuiltKeepsRows(nodes, edges, tenant, source, Front(candidates), a);
          assert Matches(edges[a], tenant, source, target, candidates[j].relationshipType);
        }
      }
    } else {
      a := AddingCandidateHasRow(nodes, edges, tenant, source, Front(candidates), j, target);
      b := |Rebuilt(nodes, edges, tenant, source, Front(candidates))|;
    }
  }

  // The rebuild searches only the rows that were there before it, so it keeps the table's unique
  // key exactly when no two candidates resolve to the same unstored edge.
  lemma UniqueExactlyWhenNoClash(nodes: Nodes, edges: seq<Edge>, tenant: Id, source: Id, candidates: seq<EdgeCandidate>)
    requires OneExtractor(edges) && UniqueEdges(edges)
    ensures UniqueEdges(Rebuilt(nodes, edges, tenant, source, candidates))
       <==> NoClash(nodes, edges, tenant, source, candidates)
  {
    if NoClash(nodes, edges, tenant, source, candidates) {
      UniqueWhenNoClash(nodes, edges, tenant, source, candidates);
    } else {
      var j: nat, k: nat :| j < k < |candidates| && Clash(nodes, edges, tenant, source, candidates[j], candidates[k]);
      ClashDuplicates(nodes, edges, tenant, source, candidates, j, k);
    }
  }

  // The extractor's one-candidate-per-target dictionary, together with the node table's unique
  // ARM ids, is what rules such a clash out.
  lemma OnePerTargetNeverClashes(nodes: Nodes, edges: seq<Edge>, tenant: Id, source: Id, candidates: seq<EdgeCandidate>)
    requires UniqueArmIds(nodes) && OnePerTarget(candidates)
    ensures NoClash(nodes, edges, tenant, source, candidates)
  {
    forall i, j | 0 <= i < j < |candidates| ensures !Clash(nodes, edges, tenant, source, candidates[i], candidates[j]) {
      assert candidates[i].target != candidates[j].target;
      ResolveNames(nodes, tenant, candidates[i].target);
      ResolveNames(nodes, tenant, candidates[j].target);
    }
  }

  lemma ResolveNames(nodes: Nodes, tenant: Id, target: string)
    ensures Resolve(nodes, tenant, target).Some? ==>
      var k := NodeKey(tenant, Resolve(nodes, tenant, target).value);
      k in nodes && nodes[k].normalizedId == target
  {
  }

  // While no candidate wants row i's edge, the rebuild leaves the row inactive; the candidate that
  // wants it, if it is the only one, reactivates the row with its own evidence.
  lemma {:induction false} UnwantedRowStaysInactive(nodes: Nodes, edges: seq<Edge>, tenant: Id, source: Id,
                                                    candidates: seq<EdgeCandidate>, i: nat)
    requires i < |edges| && Current(edges[i], tenant, source)
    requires forall d | d in candidates :: !Wanted(nodes, tenant, source, d, edges[i].target, edges[i].relationshipType)
    ensures !Rebuilt(nodes, edges, tenant, source, candidates)[i].active
  {
    if candidates != [] {
      assert Last(candidates) in candidates;
      UnwantedRowStaysInactive(nodes, edges, tenant, source, Front(candidates), i);
      RebuiltKeepsRows(nodes, edges, tenant, source, Front(candidates), i);
    }
  }

  lemma {:induction false} WantedRowIsReactivated(nodes: Nodes, edges: seq<Edge>, tenant: Id, source: Id,
                                                  candidates: seq<EdgeCandidate>, i: nat, k: nat)
    requires UniqueEdges(edges) && OneExtractor(edges) && i < |edges| && Current(edges[i], tenant, source)
    requires k < |candidates|
    requires forall m | 0 <= m < |candidates| ::
               Wanted(nodes, tenant, source, candidates[m], edges[i].target, edges[i].relationshipType) <==> m == k
    ensures Rebuilt(nodes, edges, tenant, source, candidates)[i]
         == edges[i].(active := true, evidencePath := candidates[k].evidencePath)
  {
    var before := Rebuilt(nodes, edges, tenant, source, Front(candidates));
    forall j: nat | j < |edges| ensures KeepsRow(edges[j], before[j], tenant, source) {
      RebuiltKeepsRows(nodes, edges, tenant, source, Front(candidates), j);
    }
    if k < |candidates| - 1 {
      WantedRowIsReactivated(nodes, edges, tenant, source, Front(candidates), i, k);
      assert !Wanted(nodes, tenant, source, candidates[|candidates| - 1], edges[i].target, edges[i].relationshipType);
    } else {
      var row := FindRow(before, |edges|, tenant, source, edges[i].target, edges[i].relationshipType);
      assert Matches(before[i], tenant, source, edges[i].target, edges[i].relationshipType);
      assert SameEdge(edges[row.value], edges[i]);
      assert row == Some(i);
    }
  }

  // Different candidates of one dictionary resolve to different nodes.
  lemma OnlyOneWants(nodes: Nodes, tenant: Id, source: Id, candidates: seq<EdgeCandidate>, k: nat, target: Id,
                     kind: string)
    requires UniqueArmIds(nodes) && OnePerTarget(candidates)
    requires k < |candidates| && Wanted(nodes, tenant, source, candidates[k], target, kind)
    ensures forall m | 0 <= m < |candidates| :: Wanted(nodes, tenant, source, candidates[m], target, kind) <==> m == k
  {
    ResolveNames(nodes, tenant, candidates[k].target);
    forall m | 0 <= m < |candidates| && Wanted(nodes, tenant, source, candidates[m], target, kind) ensures m == k {
      ResolveNames(nodes, tenant, candidates[m].target);
      assert candidates[m].target == candidates[k].target;
    }
  }

  // A reference that is dropped and comes back, whatever else the two rebuilds find and however
  // the nodes changed between them, reuses the row it had: inactive in between, active afterwards
  // with the new evidence, and the only row with its key.
  lemma RestoredReferenceReusesRow(nodes1: Nodes, nodes2: Nodes, edges: seq<Edge>, tenant: Id, source: Id,
                                   without: seq<EdgeCandidate>, again: seq<EdgeCandidate>, k: nat, i: nat)
    requires OneExtractor(edges) && UniqueEdges(edges) && i < |edges| && Current(edges[i], tenant, source)
    requires UniqueArmIds(nodes1) && OnePerTarget(without)
    requires forall d | d in without :: !Wanted(nodes1, tenant, source, d, edges[i].target, edges[i].relationshipType)
    requires UniqueArmIds(nodes2) && OnePerTarget(again) && k < |again|
    requires Wanted(nodes2, tenant, source, again[k], edges[i].target, edges[i].relationshipType)
    ensures
      var dropped := Rebuilt(nodes1, edges, tenant, source, without);
      var restored := Rebuilt(nodes2, dropped, tenant, source, again);
      && !dropped[i].active
      && restored[i] == edges[i].(active := true, evidencePath := again[k].evidencePath)
      && UniqueEdges(restored)
  {
    UnwantedRowStaysInactive(nodes1, edges, tenant, source, without, i);
    RebuiltKeepsRows(nodes1, edges, tenant, source, without, i);
    var dropped := Rebuilt(nodes1, edges, tenant, source, without);
    RebuiltKeepsKeys(nodes1, edges, tenant, source, without);
    OnlyOneWants(nodes2, tenant, source, again, k, edges[i].target, edges[i].relationshipType);
    WantedRowIsReactivated(nodes2, dropped, tenant, source, again, i, k);
    RebuiltKeepsKeys(nodes2, dropped, tenant, source, again);
  }

  lemma RebuiltKeepsKeys(nodes: Nodes, edges: seq<Edge>, tenant: Id, source: Id, candidates: seq<EdgeCandidate>)
    requires OneExtractor(edges) && UniqueEdges(edges) && UniqueArmIds(nodes) && OnePerTarget(candidates)
    ensures OneExtractor(Rebuilt(nodes, edges, tenant, source, candidates))
    ensures UniqueEdges(Rebuilt(nodes, edges, tenant, source, candidates))
  {
    OnePerTargetNeverClashes(nodes, edges, tenant, source, candidates);
    UniqueWhenNoClash(nodes, edges, tenant, source, candidates);
    var now := Rebuilt(nodes, edges, tenant, source, candidates);
    forall i: nat | i < |now|
      ensures now[i].extractorName == EXTRACTOR_NAME && now[i].sourceSystem == SOURCE_SYSTEM
    {
      if i < |edges| {
        RebuiltKeepsRows(nodes, edges, tenant, source, candidates, i);
      } else {
        var k := AddedRowHasCandidate(nodes, edges, tenant, source, candidates, i);
      }
    }
  }
}
