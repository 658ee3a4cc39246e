/** Balls around a node of the edge table, and what they mean in terms of walks. */
module Reachability {
  import opened Prelude
  import opened Events
  import opened Relationships

  datatype Direction = Upstream | Downstream | Both

  // Edge e leads from u to v when followed in this direction.
  predicate Joins(e: Edge, dir: Direction, u: Id, v: Id) {
    || (dir != Upstream && e.source == u && e.target == v)
    || (dir != Downstream && e.target == u && e.source == v)
  }

  // Edge e leaves one of these nodes.
  predicate Touches(e: Edge, dir: Direction, from: set<Id>) {
    || (dir != Upstream && e.source in from)
    || (dir != Downstream && e.target in from)
  }

  // The edges among `ids` that leave one of these nodes.
  function Touching(edges: seq<Edge>, ids: set<nat>, dir: Direction, from: set<Id>): set<nat> {
    set i | i in ids && i < |edges| && Touches(edges[i], dir, from)
  }

  // Where those edges lead.
  function Beyond(edges: seq<Edge>, ids: set<nat>, dir: Direction, from: set<Id>): set<Id> {
    (set i | i in ids && i < |edges| && dir != Upstream && edges[i].source in from :: edges[i].target) +
    (set i | i in ids && i < |edges| && dir != Downstream && edges[i].target in from :: edges[i].source)
  }

  // Going k rounds outwards from some nodes.
  function Outwards(edges: seq<Edge>, ids: set<nat>, dir: Direction, from: set<Id>, k: nat): set<Id> {
    if k == 0 then from
    else
      var inner := Outwards(edges, ids, dir, from, k - 1);
      inner + Beyond(edges, ids, dir, inner)
  }

  // The nodes at distance at most k from the root over the edges `ids`.
  function Ball(edges: seq<Edge>, ids: set<nat>, dir: Direction, root: Id, k: nat): set<Id> {
    Outwards(edges, ids, dir, {root}, k)
  }

  lemma BallUnfolds(edges: seq<Edge>, ids: set<nat>, dir: Direction, root: Id, k: nat)
    ensures Ball(edges, ids, dir, root, 0) == {root}
    ensures k > 0 ==>
      var inner := Ball(edges, ids, dir, root, k - 1);
      Ball(edges, ids, dir, root, k) == inner + Beyond(edges, ids, dir, inner)
  {
  }

  // The nodes at distance exactly k.
  function Sphere(edges: seq<Edge>, ids: set<nat>, dir: Direction, root: Id, k: nat): set<Id> {
    if k == 0 then {root} else Ball(edges, ids, dir, root, k) - Ball(edges, ids, dir, root, k - 1)
  }

  // The edges that leave nodes at distance below k.
  function Inner(edges: seq<Edge>, ids: set<nat>, dir: Direction, root: Id, k: nat): set<nat> {
    if k == 0 then {} else Touching(edges, ids, dir, Ball(edges, ids, dir, root, k - 1))
  }

  // ---------- walks ----------

  ghost predicate Adjacent(edges: seq<Edge>, ids: set<nat>, dir: Direction, u: Id, v: Id) {
    exists i :: i in ids && i < |edges| && Joins(edges[i], dir, u, v)
  }

  ghost predicate IsWalk(edges: seq<Edge>, ids: set<nat>, dir: Direction, root: Id, walk: seq<Id>, v: Id) {
    && walk != [] && walk[0] == root && Last(walk) == v
    && forall k | 0 <= k < |walk| - 1 :: Adjacent(edges, ids, dir, walk[k], walk[k + 1])
  }

  lemma BeyondIsAdjacent(edges: seq<Edge>, ids: set<nat>, dir: Direction, from: set<Id>, v: Id)
    ensures v in Beyond(edges, ids, dir, from) <==> exists u :: u in from && Adjacent(edges, ids, dir, u, v)
  {
    if v in Beyond(edges, ids, dir, from) {
      if i :| i in ids && i < |edges| && dir != Upstream && edges[i].source in from && edges[i].target == v {
        assert Joins(edges[i], dir, edges[i].source, v);
        assert Adjacent(edges, ids, dir, edges[i].source, v);
      } else {
        var i :| i in ids && i < |edges| && dir != Downstream && edges[i].target in from && edges[i].source == v;
        assert Joins(edges[i], dir, edges[i].target, v);
        assert Adjacent(edges, ids, dir, edges[i].target, v);
      }
    }
  }

  lemma NearerNode(edges: seq<Edge>, ids: set<nat>, dir: Direction, root: Id, k: nat, v: Id) returns (u: Id)
    requires k > 0 && v in Ball(edges, ids, dir, root, k) && v !in Ball(edges, ids, dir, root, k - 1)
    ensures u in Ball(edges, ids, dir, root, k - 1) && Adjacent(edges, ids, dir, u, v)
  {
    var inner := Ball(edges, ids, dir, root, k - 1);
    BeyondIsAdjacent(edges, ids, dir, inner, v);
    u :| u in inner && Adjacent(edges, ids, dir, u, v);
  }

  lemma ExtendWalk(edges: seq<Edge>, ids: set<nat>, dir: Direction, root: Id, walk: seq<Id>, u: Id, v: Id)
    requires IsWalk(edges, ids, dir, root, walk, u) && Adjacent(edges, ids, dir, u, v)
    ensures IsWalk(edges, ids, dir, root, walk + [v], v)
  {
  }

  lemma {:induction false} BallHasWalk(edges: seq<Edge>, ids: set<nat>, dir: Direction, root: Id, k: nat, v: Id)
    returns (walk: seq<Id>)
    requires v in Ball(edges, ids, dir, root, k)
    ensures IsWalk(edges, ids, dir, root, walk, v) && |walk| <= k + 1
  {
    if k == 0 {
      walk := [root];
    } else if v in Ball(edges, ids, dir, root, k - 1) {
      walk := BallHasWalk(edges, ids, dir, root, k - 1, v);
    } else {
      var u := NearerNode(edges, ids, dir, root, k, v);
      var shorter := BallHasWalk(edges, ids, dir, root, k - 1, u);
      ExtendWalk(edges, ids, dir, root, shorter, u, v);
      walk := shorter + [v];
    }
  }

  lemma {:induction false} WalkStaysInBall(edges: seq<Edge>, ids: set<nat>, dir: Direction, root: Id,
                                           walk: seq<Id>, v: Id, k: nat)
    requires IsWalk(edges, ids, dir, root, walk, v) && |walk| <= k + 1
    ensures v in Ball(edges, ids, dir, root, k)
    decreases k
  {
    if k > 0 {
      if |walk| <= k {
        WalkStaysInBall(edges, ids, dir, root, walk, v, k - 1);
      } else {
        var u := walk[|walk| - 2];
        WalkStaysInBall(edges, ids, dir, root, Front(walk), u, k - 1);
        assert Adjacent(edges, ids, dir, walk[|walk| - 2], walk[|walk| - 1]);
        BeyondIsAdjacent(edges, ids, dir, Ball(edges, ids, dir, root, k - 1), v);
      }
    }
  }

  // Being in the ball of radius k means being joined to the root by at most k edges.
  lemma BallIsWalks(edges: seq<Edge>, ids: set<nat>, dir: Direction, root: Id, k: nat, v: Id)
    ensures v in Ball(edges, ids, dir, root, k)
       <==> exists walk :: IsWalk(edges, ids, dir, root, walk, v) && |walk| <= k + 1
  {
    if v in Ball(edges, ids, dir, root, k) {
      var walk := BallHasWalk(edges, ids, dir, root, k, v);
    }
    if walk :| IsWalk(edges, ids, dir, root, walk, v) && |walk| <= k + 1 {
      WalkStaysInBall(edges, ids, dir, root, walk, v, k);
    }
  }

  // Being on the sphere of radius k means that the shortest walk has exactly k edges.
  lemma SphereIsDistance(edges: seq<Edge>, ids: set<nat>, dir: Direction, root: Id, k: nat, v: Id)
    ensures v in Sphere(edges, ids, dir, root, k)
       <==> && (exists walk :: IsWalk(edges, ids, dir, root, walk, v) && |walk| == k + 1)
            && (forall walk :: IsWalk(edges, ids, dir, root, walk, v) ==> |walk| >= k + 1)
  {
    BallIsWalks(edges, ids, dir, root, k, v);
    if k > 0 {
      BallIsWalks(edges, ids, dir, root, k - 1, v);
    } else {
      forall walk | IsWalk(edges, ids, dir, root, walk, v) ensures |walk| >= k + 1 {}
    }
    if v in Sphere(edges, ids, dir, root, k) {
      var walk :| IsWalk(edges, ids, dir, root, walk, v) && |walk| <= k + 1;
      assert |walk| == k + 1;
    }
  }

  // ---------- growth ----------

  lemma GrownGrows(edges: seq<Edge>, few: set<nat>, many: set<nat>, dir: Direction, from: set<Id>, wider: set<Id>)
    requires few <= many && from <= wider
    ensures from + Beyond(edges, few, dir, from) <= wider + Beyond(edges, many, dir, wider)
  {
  }

  lemma TouchingGrows(edges: seq<Edge>, ids: set<nat>, dir: Direction, from: set<Id>, wider: set<Id>)
    requires from <= wider
    ensures Touching(edges, ids, dir, from) <= Touching(edges, ids, dir, wider)
  {
  }

  lemma {:induction false} RootInBall(edges: seq<Edge>, ids: set<nat>, dir: Direction, root: Id, k: nat)
    ensures root in Ball(edges, ids, dir, root, k)
  {
    if k > 0 {
      RootInBall(edges, ids, dir, root, k - 1);
    }
  }

  lemma {:induction false} BallGrowsWithEdges(edges: seq<Edge>, few: set<nat>, many: set<nat>, dir: Direction,
                                              root: Id, k: nat)
    requires few <= many
    ensures Ball(edges, few, dir, root, k) <= Ball(edges, many, dir, root, k)
  {
    if k > 0 {
      BallGrowsWithEdges(edges, few, many, dir, root, k - 1);
      GrownGrows(edges, few, many, dir, Ball(edges, few, dir, root, k - 1), Ball(edges, many, dir, root, k - 1));
    }
  }

  lemma NextBallGrows(edges: seq<Edge>, ids: set<nat>, dir: Direction, root: Id, k: nat)
    requires k > 0
    ensures Ball(edges, ids, dir, root, k - 1) <= Ball(edges, ids, dir, root, k)
  {
  }

  lemma {:induction false} BallGrowsWithRadius(edges: seq<Edge>, ids: set<nat>, dir: Direction, root: Id, j: nat,
                                               k: nat)
    requires j <= k
    ensures Ball(edges, ids, dir, root, j) <= Ball(edges, ids, dir, root, k)
    decreases k
  {
    if j < k {
      BallGrowsWithRadius(edges, ids, dir, root, j, k - 1);
      NextBallGrows(edges, ids, dir, root, k);
    }
  }

  lemma InnerGrowsWithRadius(edges: seq<Edge>, ids: set<nat>, dir: Direction, root: Id, j: nat, k: nat)
    requires j <= k
    ensures Inner(edges, ids, dir, root, j) <= Inner(edges, ids, dir, root, k)
  {
    if 0 < j {
      BallGrowsWithRadius(edges, ids, dir, root, j - 1, k - 1);
      TouchingGrows(edges, ids, dir, Ball(edges, ids, dir, root, j - 1), Ball(edges, ids, dir, root, k - 1));
    }
  }

  lemma EmptySphereStops(edges: seq<Edge>, ids: set<nat>, dir: Direction, root: Id, j: nat)
    requires 1 <= j && Sphere(edges, ids, dir, root, j) == {}
    ensures Ball(edges, ids, dir, root, j) == Ball(edges, ids, dir, root, j - 1)
  {
    NextBallGrows(edges, ids, dir, root, j);
    forall v | v in Ball(edges, ids, dir, root, j) ensures v in Ball(edges, ids, dir, root, j - 1) {
      assert v !in Sphere(edges, ids, dir, root, j);
    }
  }

  lemma {:induction false} StoppedBallStays(edges: seq<Edge>, ids: set<nat>, dir: Direction, root: Id, j: nat, k: nat)
    requires j < k && Ball(edges, ids, dir, root, j + 1) == Ball(edges, ids, dir, root, j)
    ensures Ball(edges, ids, dir, root, k) == Ball(edges, ids, dir, root, j)
  {
    if j + 1 < k {
      StoppedBallStays(edges, ids, dir, root, j, k - 1);
      BallUnfolds(edges, ids, dir, root, k);
      BallUnfolds(edges, ids, dir, root, j + 1);
    }
  }

  // Once a sphere is empty the ball has stopped growing.
  lemma BallStops(edges: seq<Edge>, ids: set<nat>, dir: Direction, root: Id, j: nat, k: nat)
    requires 1 <= j <= k && Sphere(edges, ids, dir, root, j) == {}
    ensures Ball(edges, ids, dir, root, k) == Ball(edges, ids, dir, root, j - 1)
  {
    EmptySphereStops(edges, ids, dir, root, j);
    StoppedBallStays(edges, ids, dir, root, j - 1, k);
  }

  lemma InnerStops(edges: seq<Edge>, ids: set<nat>, dir: Direction, root: Id, j: nat, k: nat)
    requires 1 <= j <= k && Sphere(edges, ids, dir, root, j) == {}
    ensures Inner(edges, ids, dir, root, k) == Inner(edges, ids, dir, root, j)
  {
    if j < k {
      BallStops(edges, ids, dir, root, j, k - 1);
    }
  }

  // One exact round: the edges leaving the sphere of radius k lead from the ball to the next one.
  lemma NextSphere(edges: seq<Edge>, ids: set<nat>, dir: Direction, root: Id, k: nat)
    ensures
      var sphere := Sphere(edges, ids, dir, root, k);
      var ball := Ball(edges, ids, dir, root, k);
      && sphere <= ball
      && ball + Beyond(edges, ids, dir, sphere) == Ball(edges, ids, dir, root, k + 1)
      && Beyond(edges, ids, dir, sphere) - ball == Sphere(edges, ids, dir, root, k + 1)
      && Inner(edges, ids, dir, root, k + 1) == Inner(edges, ids, dir, root, k) + Touching(edges, ids, dir, sphere)
  {
    var sphere := Sphere(edges, ids, dir, root, k);
    var ball := Ball(edges, ids, dir, root, k);
    if k > 0 {
      var inner := Ball(edges, ids, dir, root, k - 1);
      assert ball == inner + sphere;
      assert Beyond(edges, ids, dir, ball) == Beyond(edges, ids, dir, inner) + Beyond(edges, ids, dir, sphere);
      assert Beyond(edges, ids, dir, inner) <= ball;
    }
  }
}
