/** The bounded breadth-first search behind the graph endpoint. */
module Traversal {
  import opened Prelude
  import opened Events
  import opened Relationships
  import opened RelationshipStore
  import opened Reachability

  datatype Query = Query(root: Id, direction: Direction, maxDepth: nat, maxNodes: nat, kinds: seq<string>)

  datatype GraphResponse = GraphResponse(root: Id, truncated: bool, nodes: set<NodeKey>, edges: set<nat>)

  predicate KindWanted(q: Query, e: Edge) {
    q.kinds == [] || e.relationshipType in q.kinds
  }

  // The edges a query may follow: active, of the tenant, of a wanted kind.
  function InScope(edges: seq<Edge>, tenant: Id, q: Query): set<nat> {
    set i | 0 <= i < |edges| && edges[i].active && edges[i].tenant == tenant && KindWanted(q, edges[i])
  }

  function Ends(edges: seq<Edge>, ids: set<nat>): set<Id> {
    (set i | i in ids && i < |edges| :: edges[i].source) + (set i | i in ids && i < |edges| :: edges[i].target)
  }

  // The active edges of the tenant that leave the frontier, each once, in no particular order.
  method EdgesForFrontier(repo: Repository, tenant: Id, frontier: set<Id>, dir: Direction) returns (ids: seq<nat>)
    ensures forall i :: i in ids <==>
              0 <= i < |repo.edges| && repo.edges[i].active && repo.edges[i].tenant == tenant
              && Touches(repo.edges[i], dir, frontier)
    ensures forall j, k | 0 <= j < k < |ids| :: ids[j] != ids[k]
  {
    ids := [];
    for i := 0 to |repo.edges|
      invariant forall n :: n in ids <==>
                  0 <= n < i && repo.edges[n].active && repo.edges[n].tenant == tenant
                  && Touches(repo.edges[n], dir, frontier)
      invariant forall j, k | 0 <= j < k < |ids| :: ids[j] != ids[k]
    {
      var e := repo.edges[i];
      if e.active && e.tenant == tenant && Touches(e, dir, frontier) {
        ids := ids + [i];
      }
    }
  }

  // How many nodes a search may visit: with a limit of one, the first edge still adds its far end.
  function NodeLimit(q: Query): nat {
    Max(2, q.maxNodes)
  }

  lemma OneMoreNode(visited: set<Id>, next: set<Id>, e: Edge, dir: Direction, frontier: set<Id>)
    requires frontier <= visited && Touches(e, dir, frontier)
    ensures |visited + (next + {e.source, e.target})| <= |visited + next| + 1
  {
    var near := if e.source in frontier then e.source else e.target;
    var far := if e.source in frontier then e.target else e.source;
    assert visited + (next + {e.source, e.target}) == (visited + next) + {far};
  }

  function WantedIds(edges: seq<Edge>, q: Query, ids: seq<nat>): set<nat> {
    set i | i in ids && i < |edges| && KindWanted(q, edges[i])
  }

  lemma FollowOne(edges: seq<Edge>, q: Query, ids: seq<nat>, j: nat)
    requires j < |ids| && ids[j] < |edges|
    ensures
      var before, after := WantedIds(edges, q, ids[..j]), WantedIds(edges, q, ids[..j + 1]);
      var e := edges[ids[j]];
      && after == (if KindWanted(q, e) then before + {ids[j]} else before)
      && Ends(edges, after) == Ends(edges, before) + (if KindWanted(q, e) then {e.source, e.target} else {})
  {
    var before, after := WantedIds(edges, q, ids[..j]), WantedIds(edges, q, ids[..j + 1]);
    assert ids[..j + 1] == ids[..j] + [ids[j]];
    assert after == (if KindWanted(q, edges[ids[j]]) then before + {ids[j]} else before);
  }

  // What following one more listed edge does to the sets, when it is wanted.
  lemma FollowWanted(edges: seq<Edge>, q: Query, ids: seq<nat>, j: nat, frontier: set<Id>, visited: set<Id>,
                     next: set<Id>, added: set<nat>)
    requires j < |ids| && ids[j] < |edges| && KindWanted(q, edges[ids[j]])
    requires Touches(edges[ids[j]], q.direction, frontier) && frontier <= visited
    requires added == WantedIds(edges, q, ids[..j]) && next == Ends(edges, added)
    ensures
      var e := edges[ids[j]];
      && added + {ids[j]} == WantedIds(edges, q, ids[..j + 1]) <= WantedIds(edges, q, ids)
      && next + {e.source, e.target} == Ends(edges, added + {ids[j]})
      && |visited + (next + {e.source, e.target})| <= |visited + next| + 1
  {
    FollowOne(edges, q, ids, j);
    OneMoreNode(visited, next, edges[ids[j]], q.direction, frontier);
  }

  // The inner loop: follow the listed edges until the node limit is reached.  `added` are the
  // edges followed.
  method FollowEdges(edges: seq<Edge>, q: Query, ids: seq<nat>, frontier: set<Id>, visited: set<Id>)
    returns (next: set<Id>, added: set<nat>, truncated: bool)
    requires forall k | 0 <= k < |ids| :: ids[k] < |edges| && Touches(edges[ids[k]], q.direction, frontier)
    requires frontier <= visited && |visited| < NodeLimit(q)
    ensures next == Ends(edges, added)
    ensures added <= WantedIds(edges, q, ids)
    ensures !truncated ==> added == WantedIds(edges, q, ids)
    ensures |visited + next| <= NodeLimit(q)
    ensures !truncated ==> |visited + next| < NodeLimit(q)
    ensures truncated <==> added != {} && |visited + next| >= q.maxNodes
  {
    next, added, truncated := {}, {}, false;
    assert visited + next == visited;
    var j := 0;
    while j < |ids|
      invariant 0 <= j <= |ids|
      invariant added == WantedIds(edges, q, ids[..j]) && next == Ends(edges, added)
      invariant |visited + next| < NodeLimit(q)
      invariant added != {} ==> |visited + next| < q.maxNodes
    {
      var e := edges[ids[j]];
      j := j + 1;
      if !KindWanted(q, e) {
        FollowOne(edges, q, ids, j - 1);
        continue;
      }
      FollowWanted(edges, q, ids, j - 1, frontier, visited, next, added);
      added := added + {ids[j - 1]};
      next := next + {e.source, e.target};
      if |visited + next| >= q.maxNodes {
        truncated := true;
        return;
      }
    }
    assert ids[..j] == ids;
  }

  // What holds after k rounds, truncated or not.
  ghost predicate SoundSoFar(edges: seq<Edge>, scope: set<nat>, q: Query, k: nat,
                             frontier: set<Id>, visited: set<Id>, collected: set<nat>) {
    && q.root in visited && frontier <= visited && collected <= scope
    && collected <= Inner(edges, scope, q.direction, q.root, k)
    && Ends(edges, collected) <= visited
    && visited <= Ball(edges, collected, q.direction, q.root, k)
    && visited <= Ends(edges, collected) + {q.root}
  }

  // What holds as long as nothing was cut off.
  ghost predicate ExactSoFar(edges: seq<Edge>, scope: set<nat>, q: Query, k: nat,
                             frontier: set<Id>, visited: set<Id>, collected: set<nat>) {
    && visited == Ball(edges, scope, q.direction, q.root, k)
    && frontier == Sphere(edges, scope, q.direction, q.root, k)
    && collected == Inner(edges, scope, q.direction, q.root, k)
  }

  ghost predicate CountedSoFar(q: Query, visited: set<Id>, collected: set<nat>, truncated: bool) {
    && |visited| <= NodeLimit(q)
    && (!truncated ==> |visited| < NodeLimit(q))
    && (truncated <==> collected != {} && |visited| >= q.maxNodes)
  }

  lemma TouchedEndsReached(edges: seq<Edge>, collected: set<nat>, added: set<nat>, dir: Direction, root: Id,
                           frontier: set<Id>, visited: set<Id>, k: nat)
    requires visited <= Ball(edges, collected, dir, root, k) && frontier <= visited
    requires forall i | i in added :: i < |edges| && Touches(edges[i], dir, frontier)
    ensures visited + Ends(edges, added) <= Ball(edges, collected + added, dir, root, k + 1)
  {
    var all := collected + added;
    BallGrowsWithEdges(edges, collected, all, dir, root, k);
    var ball := Ball(edges, all, dir, root, k);
    forall v | v in Ends(edges, added) ensures v in ball + Beyond(edges, all, dir, ball) {
      var i :| i in added && (v == edges[i].source || v == edges[i].target);
      assert i in all && Touches(edges[i], dir, frontier);
    }
  }

  lemma SoundRound(edges: seq<Edge>, scope: set<nat>, q: Query, k: nat,
                   frontier: set<Id>, visited: set<Id>, collected: set<nat>, added: set<nat>)
    requires SoundSoFar(edges, scope, q, k, frontier, visited, collected)
    requires added <= Touching(edges, scope, q.direction, frontier)
    ensures
      var next := Ends(edges, added) - visited;
      SoundSoFar(edges, scope, q, k + 1, next, visited + next, collected + added)
  {
    var next := Ends(edges, added) - visited;
    assert visited + next == visited + Ends(edges, added);
    assert Ends(edges, collected + added) == Ends(edges, collected) + Ends(edges, added);
    TouchedEndsReached(edges, collected, added, q.direction, q.root, frontier, visited, k);
    BallGrowsWithEdges(edges, collected, scope, q.direction, q.root, k);
    InnerGrowsWithRadius(edges, scope, q.direction, q.root, k, k + 1);
  }

  lemma ExactRound(edges: seq<Edge>, scope: set<nat>, q: Query, k: nat,
                   frontier: set<Id>, visited: set<Id>, collected: set<nat>, added: set<nat>)
    requires ExactSoFar(edges, scope, q, k, frontier, visited, collected)
    requires added == Touching(edges, scope, q.direction, frontier)
    ensures
      var next := Ends(edges, added) - visited;
      ExactSoFar(edges, scope, q, k + 1, next, visited + next, collected + added)
  {
    NextSphere(edges, scope, q.direction, q.root, k);
    EndsOfTouching(edges, scope, q.direction, frontier);
  }

  lemma EndsOfTouching(edges: seq<Edge>, scope: set<nat>, dir: Direction, from: set<Id>)
    ensures Beyond(edges, scope, dir, from) <= Ends(edges, Touching(edges, scope, dir, from))
    ensures Ends(edges, Touching(edges, scope, dir, from)) <= from + Beyond(edges, scope, dir, from)
  {
    var touching := Touching(edges, scope, dir, from);
    forall v | v in Beyond(edges, scope, dir, from) ensures v in Ends(edges, touching) {
      if i :| i in scope && i < |edges| && dir != Upstream && edges[i].source in from && edges[i].target == v {
        assert i in touching;
      } else {
        var i :| i in scope && i < |edges| && dir != Downstream && edges[i].target in from && edges[i].source == v;
        assert i in touching;
      }
    }
    forall v | v in Ends(edges, touching) ensures v in from + Beyond(edges, scope, dir, from) {
      var i :| i in touching && (v == edges[i].source || v == edges[i].target);
    }
  }

  // What a finished search means, exact or truncated.
  ghost predicate SearchResult(edges: seq<Edge>, scope: set<nat>, q: Query,
                               visited: set<Id>, collected: set<nat>, truncated: bool) {
    // every collected edge is in scope, leaves a node at distance below maxDepth, and has both
    // its ends visited
    && collected <= scope && collected <= Inner(edges, scope, q.direction, q.root, q.maxDepth)
    && Ends(edges, collected) <= visited
    // every visited node is joined to the root by at most maxDepth collected edges
    && q.root in visited && visited <= Ball(edges, collected, q.direction, q.root, q.maxDepth)
    && visited <= Ends(edges, collected) + {q.root}
    && |visited| <= NodeLimit(q)
    && (truncated <==> collected != {} && |visited| >= q.maxNodes)
    // when not truncated, nothing is missing
    && (!truncated ==>
          && visited == Ball(edges, scope, q.direction, q.root, q.maxDepth)
          && collected == Inner(edges, scope, q.direction, q.root, q.maxDepth))
  }

  // An empty frontier means that the remaining rounds would change nothing.
  lemma ExactWhenFrontierEmpty(edges: seq<Edge>, scope: set<nat>, q: Query, k: nat,
                               visited: set<Id>, collected: set<nat>, depth: nat)
    requires ExactSoFar(edges, scope, q, k, {}, visited, collected) && 0 < k <= depth
    ensures visited == Ball(edges, scope, q.direction, q.root, depth)
    ensures collected == Inner(edges, scope, q.direction, q.root, depth)
  {
    BallStops(edges, scope, q.direction, q.root, k, k);
    BallStops(edges, scope, q.direction, q.root, k, depth);
    InnerStops(edges, scope, q.direction, q.root, k, depth);
  }

  lemma SearchFinished(edges: seq<Edge>, scope: set<nat>, q: Query, k: nat,
                       frontier: set<Id>, visited: set<Id>, collected: set<nat>, truncated: bool)
    requires SoundSoFar(edges, scope, q, k, frontier, visited, collected) && k <= q.maxDepth
    requires CountedSoFar(q, visited, collected, truncated)
    requires !truncated ==> ExactSoFar(edges, scope, q, k, frontier, visited, collected)
    requires k == q.maxDepth || truncated || (frontier == {} && k > 0)
    ensures SearchResult(edges, scope, q, visited, collected, truncated)
  {
    BallGrowsWithRadius(edges, collected, q.direction, q.root, k, q.maxDepth);
    InnerGrowsWithRadius(edges, scope, q.direction, q.root, k, q.maxDepth);
    if !truncated && k < q.maxDepth {
      ExactWhenFrontierEmpty(edges, scope, q, k, visited, collected, q.maxDepth);
    }
  }

  // The flag does not mean that something is missing.  It is set exactly when the whole answer
  // has an edge and at least maxNodes nodes, whatever order the edges came in.
  lemma TruncatedExactly(edges: seq<Edge>, scope: set<nat>, q: Query,
                         visited: set<Id>, collected: set<nat>, truncated: bool)
    requires SearchResult(edges, scope, q, visited, collected, truncated)
    ensures truncated <==>
      && Inner(edges, scope, q.direction, q.root, q.maxDepth) != {}
      && |Ball(edges, scope, q.direction, q.root, q.maxDepth)| >= q.maxNodes
  {
    var ball := Ball(edges, scope, q.direction, q.root, q.maxDepth);
    if truncated {
      BallGrowsWithEdges(edges, collected, scope, q.direction, q.root, q.maxDepth);
      SubsetIsSmaller(visited, ball);
    }
  }

  // No edge leads from a node to itself; edges of a reachable store never do.
  ghost predicate NoLoops(edges: seq<Edge>, scope: set<nat>) {
    forall i | i in scope :: i < |edges| && edges[i].source != edges[i].target
  }

  lemma EdgeBringsTwoNodes(edges: seq<Edge>, scope: set<nat>, q: Query, visited: set<Id>, collected: set<nat>,
                           truncated: bool)
    requires SearchResult(edges, scope, q, visited, collected, truncated) && NoLoops(edges, scope) && collected != {}
    ensures |visited| >= 2
  {
    var i :| i in collected;
    assert edges[i].source in Ends(edges, collected) && edges[i].target in Ends(edges, collected);
    SubsetIsSmaller({edges[i].source, edges[i].target}, visited);
  }

  // A search finds every node within maxDepth exactly when there are no more than the node limit.
  lemma AllNodesFoundExactly(edges: seq<Edge>, scope: set<nat>, q: Query, visited: set<Id>, collected: set<nat>,
                             truncated: bool)
    requires SearchResult(edges, scope, q, visited, collected, truncated) && NoLoops(edges, scope)
    ensures
      var ball := Ball(edges, scope, q.direction, q.root, q.maxDepth);
      visited == ball <==> |ball| <= NodeLimit(q)
  {
    var ball := Ball(edges, scope, q.direction, q.root, q.maxDepth);
    if |ball| <= NodeLimit(q) && truncated {
      EdgeBringsTwoNodes(edges, scope, q, visited, collected, truncated);
      BallGrowsWithEdges(edges, collected, scope, q.direction, q.root, q.maxDepth);
      SubsetOfSameSize(visited, ball);
    }
  }

  lemma SubsetOfSameSize(a: set<Id>, b: set<Id>)
    requires a <= b && |b| <= |a|
    ensures a == b
  {
    SubsetIsSmaller(b - a, b);
    assert |b| == |a| + |b - a| by { assert b == a + (b - a); }
  }

  // So the flag is set although no node is missing exactly when there is an edge and the nodes
  // just reach the limit.
  lemma FlaggedWithoutMissingNodesExactly(edges: seq<Edge>, scope: set<nat>, q: Query,
                                          visited: set<Id>, collected: set<nat>, truncated: bool)
    requires SearchResult(edges, scope, q, visited, collected, truncated) && NoLoops(edges, scope)
    ensures
      var ball := Ball(edges, scope, q.direction, q.root, q.maxDepth);
      truncated && visited == ball <==>
        Inner(edges, scope, q.direction, q.root, q.maxDepth) != {} && q.maxNodes <= |ball| <= NodeLimit(q)
  {
    TruncatedExactly(edges, scope, q, visited, collected, truncated);
    AllNodesFoundExactly(edges, scope, q, visited, collected, truncated);
  }

  lemma OneEdgeReached(edges: seq<Edge>, scope: set<nat>, root: Id)
    requires |edges| == 1 && scope == {0} && edges[0].source == root
    ensures Ball(edges, scope, Downstream, root, 1) == {root, edges[0].target}
    ensures Inner(edges, scope, Downstream, root, 1) == {0}
  {
    var ball := Ball(edges, scope, Downstream, root, 0);
    assert ball == {root};
    assert Touching(edges, scope, Downstream, ball) == {0};
    assert edges[0].target in Beyond(edges, scope, Downstream, ball);
  }

  lemma OneEdgeAnswer(edges: seq<Edge>, scope: set<nat>, q: Query, visited: set<Id>, collected: set<nat>,
                      truncated: bool)
    requires |edges| == 1 && scope == {0} && edges[0].source == q.root != edges[0].target
    requires q.direction == Downstream && q.maxDepth == 1 && q.maxNodes == 2
    requires SearchResult(edges, scope, q, visited, collected, truncated)
    ensures truncated && visited == {q.root, edges[0].target} && collected == {0}
  {
    OneEdgeReached(edges, scope, q.root);
    TruncatedExactly(edges, scope, q, visited, collected, truncated);
    AllNodesFoundExactly(edges, scope, q, visited, collected, truncated);
    assert collected != {};
  }

  // A store with a single active edge is answered in full, nodes and edges, and flagged all the
  // same: this is a result, and there is no other.
  lemma FlaggedAnswerCanBeComplete(e: Edge)
    requires e.active && e.source != e.target
    ensures
      var q := Query(e.source, Downstream, 1, 2, []);
      var scope := InScope([e], e.tenant, q);
      var ball, inner := Ball([e], scope, Downstream, e.source, 1), Inner([e], scope, Downstream, e.source, 1);
      && ball == {e.source, e.target} && inner == {0}
      && SearchResult([e], scope, q, ball, inner, true)
      && (forall visited, collected, truncated | SearchResult([e], scope, q, visited, collected, truncated) ::
            visited == ball && collected == inner && truncated)
  {
    var q := Query(e.source, Downstream, 1, 2, []);
    var scope := InScope([e], e.tenant, q);
    assert scope == {0};
    var ball, inner := Ball([e], scope, Downstream, e.source, 1), Inner([e], scope, Downstream, e.source, 1);
    OneEdgeReached([e], scope, e.source);
    assert Ends([e], inner) == ball;
    forall visited, collected, truncated | SearchResult([e], scope, q, visited, collected, truncated)
      ensures visited == ball && collected == inner && truncated
    {
      OneEdgeAnswer([e], scope, q, visited, collected, truncated);
    }
  }

  // The node limit is kept exactly when it is at least two or the root has no edge to follow.
  lemma LimitKeptExactly(edges: seq<Edge>, scope: set<nat>, q: Query, visited: set<Id>, collected: set<nat>,
                         truncated: bool)
    requires SearchResult(edges, scope, q, visited, collected, truncated) && NoLoops(edges, scope)
    requires q.maxNodes >= 1 && q.maxDepth >= 1
    ensures |visited| <= q.maxNodes <==> q.maxNodes >= 2 || Touching(edges, scope, q.direction, {q.root}) == {}
  {
    if q.maxNodes == 1 {
      if Touching(edges, scope, q.direction, {q.root}) == {} {
        NothingTouchesRoot(edges, scope, q, q.maxDepth);
        assert visited == {q.root};
      } else {
        LimitOfOneVisitsTwo(edges, scope, q, visited, collected, truncated);
      }
    }
  }

  lemma {:induction false} NothingTouchesRoot(edges: seq<Edge>, scope: set<nat>, q: Query, k: nat)
    requires Touching(edges, scope, q.direction, {q.root}) == {}
    ensures Ball(edges, scope, q.direction, q.root, k) == {q.root}
    ensures Inner(edges, scope, q.direction, q.root, k) == {}
  {
    if k > 0 {
      NothingTouchesRoot(edges, scope, q, k - 1);
      EndsOfTouching(edges, scope, q.direction, {q.root});
      assert Ends(edges, {}) == {};
    }
  }

  lemma RootEdgesAreInner(edges: seq<Edge>, ids: set<nat>, dir: Direction, root: Id, k: nat)
    requires k >= 1
    ensures Touching(edges, ids, dir, {root}) <= Inner(edges, ids, dir, root, k)
    ensures |Ball(edges, ids, dir, root, k)| >= 1
  {
    RootInBall(edges, ids, dir, root, k - 1);
    RootInBall(edges, ids, dir, root, k);
    TouchingGrows(edges, ids, dir, {root}, Ball(edges, ids, dir, root, k - 1));
    SubsetIsSmaller({root}, Ball(edges, ids, dir, root, k));
  }

  // A node limit of one still lets the root's first edge bring in a second node.
  lemma LimitOfOneVisitsTwo(edges: seq<Edge>, scope: set<nat>, q: Query,
                            visited: set<Id>, collected: set<nat>, truncated: bool)
    requires SearchResult(edges, scope, q, visited, collected, truncated) && NoLoops(edges, scope)
    requires q.maxNodes <= 1 <= q.maxDepth && Touching(edges, scope, q.direction, {q.root}) != {}
    ensures truncated && |visited| == 2
  {
    RootEdgesAreInner(edges, scope, q.direction, q.root, q.maxDepth);
    TruncatedExactly(edges, scope, q, visited, collected, truncated);
    EdgeBringsTwoNodes(edges, scope, q, visited, collected, truncated);
  }

  // One round of the search: list the frontier's edges, follow them, move the frontier.
  method Round(repo: Repository, tenant: Id, q: Query, ghost k: nat,
               frontier: set<Id>, visited: set<Id>, collected: set<nat>)
    returns (frontier': set<Id>, visited': set<Id>, collected': set<nat>, truncated: bool)
    requires SoundSoFar(repo.edges, InScope(repo.edges, tenant, q), q, k, frontier, visited, collected)
    requires ExactSoFar(repo.edges, InScope(repo.edges, tenant, q), q, k, frontier, visited, collected)
    requires CountedSoFar(q, visited, collected, false)
    ensures SoundSoFar(repo.edges, InScope(repo.edges, tenant, q), q, k + 1, frontier', visited', collected')
    ensures !truncated ==>
      ExactSoFar(repo.edges, InScope(repo.edges, tenant, q), q, k + 1, frontier', visited', collected')
    ensures CountedSoFar(q, visited', collected', truncated)
  {
    var ids := EdgesForFrontier(repo, tenant, frontier, q.direction);
    assert forall k | 0 <= k < |ids| :: ids[k] in ids;
    var next, added;
    next, added, truncated := FollowEdges(repo.edges, q, ids, frontier, visited);
    ListedAreTouching(repo.edges, tenant, q, frontier, ids);
    RoundOutcome(repo.edges, InScope(repo.edges, tenant, q), q, k, frontier, visited, collected, added, truncated);
    collected' := collected + added;
    next := next - visited;
    visited' := visited + next;
    frontier' := next;
  }

  lemma ListedAreTouching(edges: seq<Edge>, tenant: Id, q: Query, frontier: set<Id>, ids: seq<nat>)
    requires forall i :: i in ids <==>
               0 <= i < |edges| && edges[i].active && edges[i].tenant == tenant
               && Touches(edges[i], q.direction, frontier)
    ensures WantedIds(edges, q, ids) == Touching(edges, InScope(edges, tenant, q), q.direction, frontier)
  {
  }

  lemma CountRound(q: Query, visited: set<Id>, ends: set<Id>, collected: set<nat>, added: set<nat>, truncated: bool)
    requires CountedSoFar(q, visited, collected, false) && (added == {} ==> ends == {})
    requires |visited + ends| <= NodeLimit(q) && (!truncated ==> |visited + ends| < NodeLimit(q))
    requires truncated <==> added != {} && |visited + ends| >= q.maxNodes
    ensures CountedSoFar(q, visited + (ends - visited), collected + added, truncated)
  {
    assert visited + (ends - visited) == visited + ends;
    if added == {} {
      assert visited + ends == visited && collected + added == collected;
    }
  }

  lemma RoundOutcome(edges: seq<Edge>, scope: set<nat>, q: Query, k: nat, frontier: set<Id>, visited: set<Id>,
                     collected: set<nat>, added: set<nat>, truncated: bool)
    requires SoundSoFar(edges, scope, q, k, frontier, visited, collected)
    requires ExactSoFar(edges, scope, q, k, frontier, visited, collected)
    requires CountedSoFar(q, visited, collected, false)
    requires added <= Touching(edges, scope, q.direction, frontier)
    requires !truncated ==> added == Touching(edges, scope, q.direction, frontier)
    requires |visited + Ends(edges, added)| <= NodeLimit(q)
    requires !truncated ==> |visited + Ends(edges, added)| < NodeLimit(q)
    requires truncated <==> added != {} && |visited + Ends(edges, added)| >= q.maxNodes
    ensures
      var next := Ends(edges, added) - visited;
      && SoundSoFar(edges, scope, q, k + 1, next, visited + next, collected + added)
      && (!truncated ==> ExactSoFar(edges, scope, q, k + 1, next, visited + next, collected + added))
      && CountedSoFar(q, visited + next, collected + added, truncated)
  {
    CountRound(q, visited, Ends(edges, added), collected, added, truncated);
    SoundRound(edges, scope, q, k, frontier, visited, collected, added);
    if !truncated {
      ExactRound(edges, scope, q, k, frontier, visited, collected, added);
    }
  }

  method Search(repo: Repository, tenant: Id, q: Query)
    returns (visited: set<Id>, collected: set<nat>, truncated: bool)
    ensures SearchResult(repo.edges, InScope(repo.edges, tenant, q), q, visited, collected, truncated)
  {
    ghost var scope := InScope(repo.edges, tenant, q);
    var frontier := {q.root};
    visited := {q.root};
    collected := {};
    truncated := false;
    var depth := 0;
    while depth < q.maxDepth
      invariant depth <= q.maxDepth && !truncated
      invariant SoundSoFar(repo.edges, scope, q, depth, frontier, visited, collected)
      invariant ExactSoFar(repo.edges, scope, q, depth, frontier, visited, collected)
      invariant CountedSoFar(q, visited, collected, truncated)
    {
      frontier, visited, collected, truncated := Round(repo, tenant, q, depth, frontier, visited, collected);
      depth := depth + 1;
      if truncated || frontier == {} {
        break;
      }
    }
    SearchFinished(repo.edges, scope, q, depth, frontier, visited, collected, truncated);
  }

  // What the answer says of the stored edges.  Each returned edge is active, of the tenant, and of
  // a wanted type, any type when none is named.
  ghost predicate OnlyWanted(edges: seq<Edge>, tenant: Id, q: Query, ids: set<nat>) {
    forall i | i in ids ::
      && i < |edges| && edges[i].active && edges[i].tenant == tenant
      && (q.kinds == [] || edges[i].relationshipType in q.kinds)
  }

  // Edge i can be followed from node u.
  ghost predicate Follows(e: Edge, tenant: Id, q: Query, u: Id, v: Id) {
    && e.active && e.tenant == tenant && (q.kinds == [] || e.relationshipType in q.kinds)
    && match q.direction
       case Downstream => e.source == u && e.target == v
       case Upstream => e.target == u && e.source == v
       case Both => (e.source == u && e.target == v) || (e.target == u && e.source == v)
  }

  // A route from the root along stored edges.
  ghost predicate IsRoute(edges: seq<Edge>, tenant: Id, q: Query, route: seq<Id>) {
    && route != [] && route[0] == q.root
    && forall k | 0 <= k < |route| - 1 :: FollowsSome(edges, tenant, q, route[k], route[k + 1])
  }

  ghost predicate FollowsSome(edges: seq<Edge>, tenant: Id, q: Query, u: Id, v: Id) {
    exists i :: 0 <= i < |edges| && Follows(edges[i], tenant, q, u, v)
  }

  // Some route of at most that many edges ends at v.
  ghost predicate Reached(edges: seq<Edge>, tenant: Id, q: Query, v: Id, length: nat) {
    exists route: seq<Id> :: IsRoute(edges, tenant, q, route) && Last(route) == v && |route| <= length + 1
  }

  lemma FollowsExactly(edges: seq<Edge>, tenant: Id, q: Query, u: Id, v: Id)
    ensures FollowsSome(edges, tenant, q, u, v) <==> Adjacent(edges, InScope(edges, tenant, q), q.direction, u, v)
  {
    var scope := InScope(edges, tenant, q);
    if FollowsSome(edges, tenant, q, u, v) {
      var i :| 0 <= i < |edges| && Follows(edges[i], tenant, q, u, v);
      assert i in scope && Joins(edges[i], q.direction, u, v);
    }
    if Adjacent(edges, scope, q.direction, u, v) {
      var i :| i in scope && i < |edges| && Joins(edges[i], q.direction, u, v);
      assert Follows(edges[i], tenant, q, u, v);
    }
  }

  lemma RoutesAreWalks(edges: seq<Edge>, tenant: Id, q: Query, route: seq<Id>)
    requires route != []
    ensures IsRoute(edges, tenant, q, route)
       <==> IsWalk(edges, InScope(edges, tenant, q), q.direction, q.root, route, Last(route))
  {
    forall k | 0 <= k < |route| - 1
      ensures FollowsSome(edges, tenant, q, route[k], route[k + 1])
         <==> Adjacent(edges, InScope(edges, tenant, q), q.direction, route[k], route[k + 1])
    {
      FollowsExactly(edges, tenant, q, route[k], route[k + 1]);
    }
  }

  lemma BallIsReached(edges: seq<Edge>, tenant: Id, q: Query, v: Id, k: nat)
    ensures v in Ball(edges, InScope(edges, tenant, q), q.direction, q.root, k) <==> Reached(edges, tenant, q, v, k)
  {
    var scope := InScope(edges, tenant, q);
    BallIsWalks(edges, scope, q.direction, q.root, k, v);
    if walk :| IsWalk(edges, scope, q.direction, q.root, walk, v) && |walk| <= k + 1 {
      RoutesAreWalks(edges, tenant, q, walk);
    }
    if route: seq<Id> :| IsRoute(edges, tenant, q, route) && Last(route) == v && |route| <= k + 1 {
      RoutesAreWalks(edges, tenant, q, route);
    }
  }

  // When nothing was cut off, the answer is complete: it has exactly the nodes reached by routes of
  // at most maxDepth edges, and exactly the edges that can be followed from a node reached by one
  // edge less.
  ghost predicate IsComplete(edges: seq<Edge>, tenant: Id, q: Query, visited: set<Id>, ids: set<nat>) {
    && (forall v: Id :: v in visited <==> Reached(edges, tenant, q, v, q.maxDepth))
    && (forall i | 0 <= i < |edges| :: i in ids <==> ReachedEdge(edges, tenant, q, i))
  }

  ghost predicate ReachedEdge(edges: seq<Edge>, tenant: Id, q: Query, i: nat)
    requires i < |edges|
  {
    q.maxDepth > 0 && exists u: Id, v: Id ::
      Reached(edges, tenant, q, u, q.maxDepth - 1) && Follows(edges[i], tenant, q, u, v)
  }

  lemma InnerIsReached(edges: seq<Edge>, tenant: Id, q: Query, i: nat)
    requires i < |edges|
    ensures i in Inner(edges, InScope(edges, tenant, q), q.direction, q.root, q.maxDepth)
       <==> ReachedEdge(edges, tenant, q, i)
  {
    if q.maxDepth > 0 {
      if i in Inner(edges, InScope(edges, tenant, q), q.direction, q.root, q.maxDepth) {
        TouchedIsReached(edges, tenant, q, i);
      }
      if ReachedEdge(edges, tenant, q, i) {
        var u: Id, v: Id :| Reached(edges, tenant, q, u, q.maxDepth - 1) && Follows(edges[i], tenant, q, u, v);
        BallIsReached(edges, tenant, q, u, q.maxDepth - 1);
      }
    }
  }

  lemma TouchedIsReached(edges: seq<Edge>, tenant: Id, q: Query, i: nat)
    requires i < |edges| && q.maxDepth > 0
    requires i in Inner(edges, InScope(edges, tenant, q), q.direction, q.root, q.maxDepth)
    ensures ReachedEdge(edges, tenant, q, i)
  {
    var ball := Ball(edges, InScope(edges, tenant, q), q.direction, q.root, q.maxDepth - 1);
    var (near, far) := if q.direction != Upstream && edges[i].source in ball
                       then (edges[i].source, edges[i].target) else (edges[i].target, edges[i].source);
    assert near in ball;
    BallIsReached(edges, tenant, q, near, q.maxDepth - 1);
    assert Follows(edges[i], tenant, q, near, far);
  }

  lemma AnswerOfSearch(edges: seq<Edge>, tenant: Id, q: Query, visited: set<Id>, ids: set<nat>, truncated: bool)
    requires SearchResult(edges, InScope(edges, tenant, q), q, visited, ids, truncated)
    ensures OnlyWanted(edges, tenant, q, ids)
    ensures !truncated ==> IsComplete(edges, tenant, q, visited, ids)
  {
    if !truncated {
      forall v: Id ensures v in visited <==> Reached(edges, tenant, q, v, q.maxDepth) {
        BallIsReached(edges, tenant, q, v, q.maxDepth);
      }
      forall i: nat | i < |edges| ensures i in ids <==> ReachedEdge(edges, tenant, q, i) {
        InnerIsReached(edges, tenant, q, i);
      }
    }
  }

  // The whole graph operation.  The final edge filter drops nothing; and in every reachable store
  // the response is closed: both ends of each edge are among the nodes, and the only visited id
  // without a node is a root that has none.
  method Graph(repo: Repository, tenant: Id, q: Query) returns (visited: set<Id>, r: GraphResponse)
    ensures SearchResult(repo.edges, InScope(repo.edges, tenant, q), q, visited, r.edges, r.truncated)
    ensures OnlyWanted(repo.edges, tenant, q, r.edges)
    ensures !r.truncated ==> IsComplete(repo.edges, tenant, q, visited, r.edges)
    ensures r.root == q.root
    ensures r.nodes == set v | v in visited && NodeKey(tenant, v) in repo.nodes :: NodeKey(tenant, v)
    ensures repo.Valid() ==> Closed(repo.edges, tenant, r)
    ensures repo.Valid() ==>
      forall v | v in visited && NodeKey(tenant, v) !in repo.nodes :: v == q.root && r.edges == {}
  {
    var collected, truncated;
    visited, collected, truncated := Search(repo, tenant, q);
    var nodes := set v | v in visited && NodeKey(tenant, v) in repo.nodes :: NodeKey(tenant, v);
    var edges := set i | i in collected && i < |repo.edges|
                         && repo.edges[i].source in visited && repo.edges[i].target in visited;
    FilterDropsNothing(repo.edges, collected, visited);
    r := GraphResponse(q.root, truncated, nodes, edges);
    AnswerOfSearch(repo.edges, tenant, q, visited, r.edges, r.truncated);
    if repo.Valid() {
      ResponseIsClosed(repo.nodes, repo.edges, tenant, q, visited, r);
    }
  }

  lemma FilterDropsNothing(edges: seq<Edge>, collected: set<nat>, visited: set<Id>)
    requires Ends(edges, collected) <= visited && forall i | i in collected :: i < |edges|
    ensures collected ==
      set i | i in collected && i < |edges| && edges[i].source in visited && edges[i].target in visited
  {
    forall i | i in collected ensures edges[i].source in visited && edges[i].target in visited {
      assert edges[i].source in Ends(edges, collected) && edges[i].target in Ends(edges, collected);
    }
  }

  ghost predicate Closed(edges: seq<Edge>, tenant: Id, r: GraphResponse) {
    forall i | i in r.edges ::
      i < |edges| && NodeKey(tenant, edges[i].source) in r.nodes && NodeKey(tenant, edges[i].target) in r.nodes
  }

  lemma ResponseIsClosed(store: Nodes, edges: seq<Edge>, tenant: Id, q: Query, visited: set<Id>, r: GraphResponse)
    requires StoreOk(store, edges) && SearchResult(edges, InScope(edges, tenant, q), q, visited, r.edges, r.truncated)
    requires r.nodes == set v | v in visited && NodeKey(tenant, v) in store :: NodeKey(tenant, v)
    ensures Closed(edges, tenant, r)
    ensures forall v | v in visited && NodeKey(tenant, v) !in store :: v == q.root && r.edges == {}
  {
    VisitedNodesExist(store, edges, tenant, q, visited, r.edges);
    forall i | i in r.edges
      ensures i < |edges| && NodeKey(tenant, edges[i].source) in r.nodes && NodeKey(tenant, edges[i].target) in r.nodes
    {
      assert edges[i].source in Ends(edges, r.edges) && edges[i].target in Ends(edges, r.edges);
    }
  }

  lemma VisitedNodesExist(nodes: Nodes, edges: seq<Edge>, tenant: Id, q: Query, visited: set<Id>, collected: set<nat>)
    requires StoreOk(nodes, edges) && collected <= InScope(edges, tenant, q)
    requires Ends(edges, collected) <= visited <= Ends(edges, collected) + {q.root}
    requires visited <= Ball(edges, collected, q.direction, q.root, q.maxDepth)
    ensures forall v | v in Ends(edges, collected) :: NodeKey(tenant, v) in nodes
    ensures forall v | v in visited && NodeKey(tenant, v) !in nodes :: v == q.root && collected == {}
  {
    forall v | v in Ends(edges, collected) ensures NodeKey(tenant, v) in nodes {
      var i :| i in collected && (v == edges[i].source || v == edges[i].target);
      assert i in InScope(edges, tenant, q);
    }
    if q.root !in Ends(edges, collected) {
      UntouchedRootStaysAlone(edges, collected, q.direction, q.root, q.maxDepth);
      assert Ends(edges, collected) == {};
      SomeEdgeHasEnds(edges, collected);
    }
  }

  lemma SomeEdgeHasEnds(edges: seq<Edge>, ids: set<nat>)
    requires forall i | i in ids :: i < |edges|
    ensures ids != {} ==> Ends(edges, ids) != {}
  {
    if i :| i in ids {
      assert edges[i].source in Ends(edges, ids);
    }
  }

  lemma NothingBeyond(edges: seq<Edge>, ids: set<nat>, dir: Direction, root: Id)
    requires root !in Ends(edges, ids)
    ensures Beyond(edges, ids, dir, {root}) == {}
  {
    forall i | i in ids && i < |edges| ensures edges[i].source != root && edges[i].target != root {
      assert edges[i].source in Ends(edges, ids) && edges[i].target in Ends(edges, ids);
    }
  }

  lemma {:induction false} UntouchedRootStaysAlone(edges: seq<Edge>, ids: set<nat>, dir: Direction, root: Id, k: nat)
    requires root !in Ends(edges, ids)
    ensures Ball(edges, ids, dir, root, k) == {root}
  {
    if k > 0 {
      UntouchedRootStaysAlone(edges, ids, dir, root, k - 1);
      NothingBeyond(edges, ids, dir, root);
    }
  }
}
