/**
 * What the RRT* planners keep on top of the basic tree: a cost per vertex
 * (`costs`, a dictionary from vertex index to a float that may be `inf`)
 * and parent links that rewiring may point at later vertices. `StarTree`
 * is the shape every pass of an RRT* loop leaves behind.
 */
module StarCore {
  import opened Common
  import opened TreeCore

  /** `max_near_nodes`: the cap on the near set. */
  const MaxNear: nat := 50

  /** The distance from every vertex to `p`, in vertex order. */
  function Distances(vs: seq<Vec>, p: Vec, dist: (Vec, Vec) -> Length): (ds: seq<real>)
    ensures |ds| == |vs| && forall i :: 0 <= i < |vs| ==> ds[i] == dist(vs[i], p)
  {
    seq(|vs|, i requires 0 <= i < |vs| => dist(vs[i], p))
  }

  /** A snapshot of an RRT* planner's tree: vertices, edges, parent table, costs and edge history. */
  datatype StarState = StarState(vertices: seq<Vec>, edges: seq<Edge>, parents: seq<Option<nat>>,
                                 costs: map<nat, Cost>, history: seq<Edge>)

  /** Every parent entry names an existing vertex other than the vertex itself. */
  predicate ParentsInRange(parents: seq<Option<nat>>, n: nat)
  {
    forall k :: 0 <= k < |parents| && parents[k].Some? ==> parents[k].value < n && parents[k].value != k
  }

  /** The cost dictionary has exactly the keys `0 .. n-1`, each a finite non-negative cost. */
  ghost predicate CostsKnown(costs: map<nat, Cost>, n: nat)
  {
    (forall k: nat :: k in costs <==> k < n) &&
    (forall k: nat :: k < n ==> costs[k].Fin? && costs[k].amount >= 0.0)
  }

  /** Vertex `k`'s recorded cost covers its parent's cost plus the edge between them. */
  ghost predicate CostCovers(g: Geometry, vertices: seq<Vec>, parents: seq<Option<nat>>, costs: map<nat, Cost>, k: nat)
    requires CostsKnown(costs, |vertices|) && |parents| == |vertices| && k < |vertices|
    requires ParentsInRange(parents, |vertices|) && parents[k].Some?
  {
    var p := parents[k].value;
    costs[k].amount >= costs[p].amount + g.dist(vertices[p], vertices[k])
  }

  /**
   * The shape each RRT* pass keeps: the start is vertex 0 and the only
   * vertex without a parent; every other vertex has a parent that is some
   * other vertex, joined by a collision-free edge; the edge list agrees with
   * the parent table; and costs are known, zero at the start, and cover
   * each parent's cost plus the edge. Rewiring lowers a cost without
   * lowering the descendants', so a cost may exceed the length of the path
   * to it; it never falls below its parent's cost plus the edge.
   */
  ghost predicate StarTree(start: Vec, g: Geometry, vertices: seq<Vec>, edges: seq<Edge>,
                           parents: seq<Option<nat>>, costs: map<nat, Cost>)
  {
    |vertices| >= 1 && vertices[0] == start && |parents| == |vertices| &&
    parents[0].None? && ParentsInRange(parents, |vertices|) &&
    (forall k :: 0 < k < |parents| ==> parents[k].Some?) &&
    EdgesMatchParents(edges, parents) &&
    CostsKnown(costs, |vertices|) && costs[0] == Fin(0.0) &&
    (forall k :: 0 < k < |vertices| ==>
       g.free(vertices[parents[k].value], vertices[k]) && CostCovers(g, vertices, parents, costs, k))
  }

  /** The start alone, with cost zero, is a tree. */
  lemma InitialStarTree(start: Vec, g: Geometry)
    ensures StarTree(start, g, [start], [], [None], map[0 := Fin(0.0)])
  {
  }

  /**
   * Attaching a new vertex under an existing one along a collision-free
   * edge, with a cost that covers the parent's plus the edge, keeps the tree.
   */
  lemma InsertKeepsStarTree(start: Vec, g: Geometry, vertices: seq<Vec>, edges: seq<Edge>,
                            parents: seq<Option<nat>>, costs: map<nat, Cost>, p: nat, q: Vec, c: real)
    requires StarTree(start, g, vertices, edges, parents, costs)
    requires p < |vertices| && g.free(vertices[p], q) && c >= costs[p].amount + g.dist(vertices[p], q)
    ensures var n := |vertices|;
            StarTree(start, g, vertices + [q], edges + [Edge(p, n)], parents + [Some(p)], costs[n := Fin(c)])
  {
    var n := |vertices|;
    InsertKeepsEdges(edges, parents, p);
    var vertices', parents', costs' := vertices + [q], parents + [Some(p)], costs[n := Fin(c)];
    assert CostsKnown(costs', n + 1);
    forall k | 0 < k < n + 1
      ensures g.free(vertices'[parents'[k].value], vertices'[k]) && CostCovers(g, vertices', parents', costs', k)
    {
      if k < n {
        assert vertices'[k] == vertices[k] && parents'[k] == parents[k];
        assert CostCovers(g, vertices, parents, costs, k);
      }
    }
  }

  /**
   * Rewiring vertex `near` under `newIdx` when the route through `newIdx`
   * is collision-free and strictly cheaper keeps the tree: `near` gets the
   * cheaper cost exactly, and its children's costs, unchanged, still cover
   * the lowered cost plus their edges.
   */
  lemma RewireKeepsStarTree(start: Vec, g: Geometry, vertices: seq<Vec>, edges: seq<Edge>,
                            parents: seq<Option<nat>>, costs: map<nat, Cost>, newIdx: nat, near: nat, c: real)
    requires StarTree(start, g, vertices, edges, parents, costs)
    requires 0 < near < |vertices| && newIdx < |vertices| && newIdx != near
    requires g.free(vertices[newIdx], vertices[near])
    requires c == costs[newIdx].amount + g.dist(vertices[newIdx], vertices[near]) && c < costs[near].amount
    ensures StarTree(start, g, vertices, DropChild(edges, near) + [Edge(newIdx, near)],
                     parents[near := Some(newIdx)], costs[near := Fin(c)])
  {
    RewireKeepsEdges(edges, parents, newIdx, near);
    var parents', costs' := parents[near := Some(newIdx)], costs[near := Fin(c)];
    assert CostsKnown(costs', |vertices|);
    forall k | 0 < k < |vertices|
      ensures g.free(vertices[parents'[k].value], vertices[k]) && CostCovers(g, vertices, parents', costs', k)
    {
      if k != near {
        assert CostCovers(g, vertices, parents, costs, k);
      }
    }
  }

  /** No route reaches the start more cheaply than its zero cost, so the start is never rewired. */
  lemma StartNeverImproved(start: Vec, g: Geometry, vertices: seq<Vec>, edges: seq<Edge>,
                           parents: seq<Option<nat>>, costs: map<nat, Cost>, newIdx: nat, d: real)
    requires StarTree(start, g, vertices, edges, parents, costs)
    requires newIdx < |vertices| && d >= 0.0
    ensures !Less(AddDist(costs[newIdx], d), costs[0])
  {
  }
}
