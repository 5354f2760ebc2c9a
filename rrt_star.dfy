/**
 * The repaired RRT* planner: each new vertex takes the cheapest
 * collision-free parent among its near vertices, then offers itself as a
 * cheaper parent to those near vertices (rewiring). The search does not stop
 * at the goal: every new vertex that lands near the goal replaces the
 * recorded path.
 */
module RrtStarPlanner {
  import opened Common
  import opened TreeCore
  import opened NearSets
  import opened StarCore

  /** The cost of reaching `p` through vertex `k`: `costs[k] + norm(vertices[k] - p)`. */
  function Through(g: Geometry, vertices: seq<Vec>, costs: map<nat, Cost>, k: nat, p: Vec): Cost
    requires k < |vertices| && k in costs
  {
    AddDist(costs[k], g.dist(vertices[k], p))
  }

  /**
   * The cost `rewire` records for a vertex it finds without one: its
   * parent's cost plus the edge when the parent has a cost, otherwise `inf`.
   */
  function ParentRoute(g: Geometry, vertices: seq<Vec>, parents: seq<Option<nat>>, costs: map<nat, Cost>, k: nat): Cost
    requires k < |vertices| && ParentsInRange(parents, |vertices|)
  {
    if k < |parents| && parents[k].Some? && parents[k].value in costs
    then Through(g, vertices, costs, parents[k].value, vertices[k])
    else Inf
  }

  /**
   * The cost `new_cost` records for a vertex it finds without one: the
   * parent route for a vertex other than the start, zero for the start.
   */
  function NewCostFill(g: Geometry, vertices: seq<Vec>, parents: seq<Option<nat>>, costs: map<nat, Cost>, k: nat): Cost
    requires k < |vertices| && ParentsInRange(parents, |vertices|)
  {
    if k != 0 && k < |parents| then ParentRoute(g, vertices, parents, costs, k)
    else if k == 0 then Fin(0.0) else Inf
  }

  /**
   * The two ways of filling in a missing cost agree on every vertex but the
   * start, and in a tree neither can undercut a recorded cost: the route
   * through the parent is finite and no dearer than the vertex's own cost.
   */
  lemma FillsAgree(start: Vec, g: Geometry, vertices: seq<Vec>, edges: seq<Edge>,
                   parents: seq<Option<nat>>, costs: map<nat, Cost>, k: nat)
    requires ParentsInRange(parents, |vertices|) && 0 < k < |vertices|
    ensures NewCostFill(g, vertices, parents, costs, k) == ParentRoute(g, vertices, parents, costs, k)
    ensures StarTree(start, g, vertices, edges, parents, costs) ==>
              ParentRoute(g, vertices, parents, costs, k).Fin? &&
              !Less(costs[k], ParentRoute(g, vertices, parents, costs, k))
  {
    if StarTree(start, g, vertices, edges, parents, costs) {
      assert CostCovers(g, vertices, parents, costs, k);
    }
  }

  /**
   * The costs while a new vertex waits for its parent: every vertex has an
   * entry, the new one `inf` and every other one finite.
   */
  ghost predicate PendingCosts(costs: map<nat, Cost>, n: nat, newIdx: nat)
  {
    newIdx < n &&
    (forall k: nat :: k in costs <==> k < n) &&
    (forall k: nat :: k < n && k != newIdx ==> costs[k].Fin?) &&
    costs[newIdx] == Inf
  }

  /** A tree with one more vertex appended at cost `inf` satisfies what choosing its parent needs. */
  lemma PendingFacts(start: Vec, g: Geometry, vertices: seq<Vec>, edges: seq<Edge>,
                     parents: seq<Option<nat>>, costs: map<nat, Cost>, q: Vec)
    requires StarTree(start, g, vertices, edges, parents, costs)
    ensures ParentsInRange(parents, |vertices| + 1) && PendingCosts(costs[|vertices| := Inf], |vertices| + 1, |vertices|)
  {
  }

  /** No vertex among the first `n` lost its cost or saw it rise from `before` to `after`. */
  ghost predicate NoCostRose(before: map<nat, Cost>, after: map<nat, Cost>, n: nat)
  {
    forall k: nat :: k < n && k in before ==> k in after && !Less(before[k], after[k])
  }

  /** Costs that never rose across two stretches never rose across both. */
  lemma NoCostRoseTrans(a: map<nat, Cost>, b: map<nat, Cost>, c: map<nat, Cost>, n: nat, m: nat)
    requires n <= m && NoCostRose(a, b, n) && NoCostRose(b, c, m)
    ensures NoCostRose(a, c, n)
  {
    forall k: nat | k < n && k in a
      ensures k in c && !Less(a[k], c[k])
    {
      LessIrreflexiveTransitive(c[k], b[k], a[k]);
    }
  }

  /**
   * One pass of `rewire`'s loop for near vertex `j`, from the unprimed to
   * the primed state: when the edge from `newIdx` is collision-free and the
   * route through `newIdx` strictly cheaper, `j` is re-parented, its edge
   * replaced, its cost lowered to that route and the edge recorded;
   * otherwise nothing changes.
   */
  ghost predicate RewireStepped(g: Geometry, vertices: seq<Vec>, newIdx: nat, j: nat,
                                parents: seq<Option<nat>>, edges: seq<Edge>, costs: map<nat, Cost>, history: seq<Edge>,
                                parents': seq<Option<nat>>, edges': seq<Edge>, costs': map<nat, Cost>, history': seq<Edge>)
  {
    if newIdx < |vertices| && j < |vertices| && j < |parents| && newIdx in costs && j in costs && j != newIdx &&
       g.free(vertices[newIdx], vertices[j]) && Less(Through(g, vertices, costs, newIdx, vertices[j]), costs[j])
    then j != 0 && parents' == parents[j := Some(newIdx)] && edges' == DropChild(edges, j) + [Edge(newIdx, j)] &&
         costs' == costs[j := Through(g, vertices, costs, newIdx, vertices[j])] && history' == history + [Edge(newIdx, j)]
    else parents' == parents && edges' == edges && costs' == costs && history' == history
  }

  /** The near vertices before position `q` can no longer be reached more cheaply through `newIdx`. */
  ghost predicate Settled(g: Geometry, vertices: seq<Vec>, costs: map<nat, Cost>, newIdx: nat, near: seq<nat>, q: nat)
  {
    forall r ::
      (0 <= r < q && r < |near| && near[r] != newIdx && newIdx < |vertices| && near[r] < |vertices| &&
       newIdx in costs && near[r] in costs && g.free(vertices[newIdx], vertices[near[r]])) ==>
      !Less(Through(g, vertices, costs, newIdx, vertices[near[r]]), costs[near[r]])
  }

  /** `history` extends `history0` with edges from `newIdx` into near vertices only. */
  ghost predicate RecordsFrom(history0: seq<Edge>, history: seq<Edge>, newIdx: nat, near: seq<nat>)
  {
    |history0| <= |history| && history[..|history0|] == history0 &&
    forall h :: |history0| <= h < |history| ==> history[h].parent == newIdx && history[h].child in near
  }

  /** Every parent entry is as in `parents0`, or was re-pointed at `newIdx` for a near vertex. */
  ghost predicate RewiredOnly(parents0: seq<Option<nat>>, parents: seq<Option<nat>>, newIdx: nat, near: seq<nat>)
  {
    |parents| == |parents0| &&
    forall j :: 0 <= j < |parents| ==> parents[j] == parents0[j] || (j in near && parents[j] == Some(newIdx))
  }

  /** Near vertex `j` offers the new vertex `k` no cheaper collision-free route than `m` does. */
  ghost predicate NoCheaperThan(g: Geometry, vertices: seq<Vec>, costs: map<nat, Cost>, j: nat, k: nat, m: nat)
  {
    j != k && j < |vertices| && j in costs && k < |vertices| && m < |vertices| && m in costs &&
    g.free(vertices[j], vertices[k]) ==>
      !Less(Through(g, vertices, costs, j, vertices[k]), Through(g, vertices, costs, m, vertices[k]))
  }

  /** Near vertex `j` is not the new vertex `k`, and the edge from it to `k` collides. */
  ghost predicate Blocked(g: Geometry, vertices: seq<Vec>, j: nat, k: nat)
  {
    j != k && j < |vertices| && k < |vertices| ==> !g.free(vertices[j], vertices[k])
  }

  /**
   * What step 7 promises about the parent `m` it gives the new vertex `k`,
   * judged by the costs at that moment: the edge from `m` is collision-free,
   * no near vertex offers a cheaper collision-free route, and `m` is a near
   * vertex, or the nearest vertex when every near vertex other than `k` is
   * blocked.
   */
  ghost predicate ParentChosen(g: Geometry, vertices: seq<Vec>, costs: map<nat, Cost>, near: seq<nat>,
                               nearestIdx: nat, k: nat, m: nat)
  {
    m < k < |vertices| && m in costs && g.free(vertices[m], vertices[k]) &&
    (forall j :: j in near ==> NoCheaperThan(g, vertices, costs, j, k, m)) &&
    (m in near || (m == nearestIdx && forall j :: j in near ==> Blocked(g, vertices, j, k)))
  }

  /**
   * The new vertex `k` of `t1` has a parent, and it is the one step 7
   * chooses among the near vertices `near`, with the costs of the tree `t0`
   * before `k` was added.
   */
  ghost predicate Attached(g: Geometry, t0: StarState, t1: StarState, near: seq<nat>, nearestIdx: nat, k: nat)
  {
    k < |t1.vertices| && |t1.parents| == |t1.vertices| && t1.parents[k].Some? &&
    ParentChosen(g, t1.vertices, t0.costs[k := Inf], near, nearestIdx, k, t1.parents[k].value)
  }

  /**
   * Step 8 as seen from `t0`, the tree before `k` was added, and `t1`, the
   * tree after rewiring: no near vertex with a collision-free edge from `k`
   * can still be reached more cheaply through it, the history holds the
   * edge into `k` followed by edges from `k` into near vertices only, and
   * every parent entry is the one `k` was attached with or points a near
   * vertex at `k`.
   */
  ghost predicate Rewired(g: Geometry, t0: StarState, t1: StarState, near: seq<nat>, k: nat)
  {
    k < |t1.parents| && t1.parents[k].Some? &&
    Settled(g, t1.vertices, t1.costs, k, near, |near|) &&
    RecordsFrom(t0.history + [Edge(t1.parents[k].value, k)], t1.history, k, near) &&
    RewiredOnly(t0.parents + [t1.parents[k]], t1.parents, k, near)
  }

  /**
   * Steps 6 to 8 put together: appending `k` to `t0`, linking it under the
   * parent step 7 chose (giving `t1`) and rewiring its near vertices (giving
   * `t2`) leave `k` attached and its near vertices rewired.
   */
  lemma LinkedThenRewired(g: Geometry, t0: StarState, t1: StarState, t2: StarState,
                          near: seq<nat>, nearestIdx: nat, k: nat, parentIdx: nat)
    requires k == |t0.parents| && |t1.vertices| == k + 1 && t2.vertices == t1.vertices
    requires t1.parents == t0.parents + [Some(parentIdx)] && t1.history == t0.history + [Edge(parentIdx, k)]
    requires ParentChosen(g, t1.vertices, t0.costs[k := Inf], near, nearestIdx, k, parentIdx)
    requires RewiredOnly(t1.parents, t2.parents, k, near) && t2.parents[k] == t1.parents[k]
    requires Settled(g, t2.vertices, t2.costs, k, near, |near|) && RecordsFrom(t1.history, t2.history, k, near)
    ensures Attached(g, t0, t2, near, nearestIdx, k) && Rewired(g, t0, t2, near, k)
  {
  }

  /**
   * What one pass of an RRT* loop does to the tree `t0`, leaving `t1`, with
   * sample `q`: the nearest vertex is steered towards `q`; nothing changes
   * exactly when that step collides, and otherwise the steered point is
   * appended under the parent step 7 chooses among its near vertices (the
   * nearest, at most 50, strictly inside `radius`), which are then rewired.
   */
  ghost predicate ExtendedBy(g: Geometry, q: Vec, stepSize: real, radius: real,
                             t0: StarState, t1: StarState, newIdx: Option<nat>)
  {
    |t0.vertices| > 0 &&
    var n := NearestIndex(t0.vertices, q, g.dist);
    var p := Steer(g, t0.vertices[n], q, stepSize);
    (newIdx.None? <==> !g.free(t0.vertices[n], p)) &&
    (newIdx.None? ==> t1 == t0) &&
    (newIdx.Some? ==>
       newIdx.value == |t0.vertices| && t1.vertices == t0.vertices + [p] &&
       exists near :: Nearest(Distances(t1.vertices, p, g.dist), |t1.vertices|, radius, MaxNear, near) &&
                      Attached(g, t0, t1, near, n, newIdx.value) && Rewired(g, t0, t1, near, newIdx.value))
  }

  /**
   * A pass of `rewire`'s loop settles the near vertex it handles, keeps the
   * earlier ones settled, raises no cost, leaves the new vertex's cost
   * alone and records at most an edge from the new vertex into it.
   */
  lemma {:induction false} RewireStepSettles(g: Geometry, vertices: seq<Vec>, newIdx: nat, near: seq<nat>, q: nat,
                                             parents: seq<Option<nat>>, edges: seq<Edge>, costs: map<nat, Cost>, history: seq<Edge>,
                                             parents': seq<Option<nat>>, edges': seq<Edge>, costs': map<nat, Cost>, history': seq<Edge>,
                                             history0: seq<Edge>, parents0: seq<Option<nat>>)
    requires CostsKnown(costs, |vertices|) && |parents| == |vertices| && newIdx < |vertices| && q < |near| && near[q] < |vertices|
    requires Settled(g, vertices, costs, newIdx, near, q) && RecordsFrom(history0, history, newIdx, near)
    requires RewiredOnly(parents0, parents, newIdx, near)
    requires RewireStepped(g, vertices, newIdx, near[q], parents, edges, costs, history, parents', edges', costs', history')
    ensures Settled(g, vertices, costs', newIdx, near, q + 1) && RecordsFrom(history0, history', newIdx, near)
    ensures NoCostRose(costs, costs', |vertices|) && costs'[newIdx] == costs[newIdx] && CostsKnown(costs', |vertices|)
    ensures RewiredOnly(parents0, parents', newIdx, near)
  {
    var j := near[q];
    var cost := Through(g, vertices, costs, newIdx, vertices[j]);
    if j != newIdx && g.free(vertices[newIdx], vertices[j]) && Less(cost, costs[j]) {
      assert costs' == costs[j := cost];
      forall r | 0 <= r < q + 1 && r < |near| && near[r] != newIdx && near[r] < |vertices| &&
                 g.free(vertices[newIdx], vertices[near[r]])
        ensures !Less(Through(g, vertices, costs', newIdx, vertices[near[r]]), costs'[near[r]])
      {
        if near[r] != j {
          assert Through(g, vertices, costs', newIdx, vertices[near[r]]) == Through(g, vertices, costs, newIdx, vertices[near[r]]);
        }
      }
      assert history'[..|history0|] == history[..|history0|];
    }
  }

  /** The path `extract_path` returns ends at the vertex it starts from. */
  lemma PathToEndsAt(vertices: seq<Vec>, parents: seq<Option<nat>>, k: nat)
    requires k < |vertices|
    ensures |PathTo(vertices, parents, k)| > 0
    ensures PathTo(vertices, parents, k)[|PathTo(vertices, parents, k)| - 1] == vertices[k]
  {
    var c := Chain(parents, |vertices|, k, {});
    assert |c| > 0;
  }

  /** The loop that copies the index of each kept tuple, in order. */
  method IndicesOf(top: seq<Pair>) returns (near: seq<nat>)
    ensures near == Indices(top)
  {
    near := [];
    var j := 0;
    while j < |top|
      invariant 0 <= j <= |top| && |near| == j
      invariant forall t :: 0 <= t < j ==> near[t] == top[t].idx
    {
      near := near + [top[j].idx];
      j := j + 1;
    }
  }

  /** The dictionary `get_details` returns (its timing entry is not modelled). */
  datatype Details = Details(
    name: string, start: Vec, goal: Vec, stepSize: real, goalSampleRate: real, maxIter: int,
    success: bool, pathLength: real, iterations: nat, nodes: nat)

  class RrtStar {
    const start: Vec
    const goal: Vec
    const geo: Geometry
    const stepSize: real
    const goalSampleRate: real
    const maxIter: int
    const searchRadius: real
    var vertices: seq<Vec>
    var edges: seq<Edge>
    var parents: seq<Option<nat>>
    var costs: map<nat, Cost>
    var iterations: nat
    var path: seq<Vec>
    var pathLength: real
    var success: bool
    var history: seq<Edge>
    /** The draws the passes since the last reset used, the tree after each of them, and what each added. */
    ghost var drawn: seq<Draw>
    ghost var trace: seq<StarState>
    ghost var outcomes: seq<Option<nat>>

    ghost predicate Valid()
      reads this`vertices, this`edges, this`parents, this`costs
    {
      StarTree(start, geo, vertices, edges, parents, costs)
    }

    /** The tree as it stands. */
    ghost function Snapshot(): StarState
      reads this`vertices, this`edges, this`parents, this`costs, this`history
    {
      StarState(vertices, edges, parents, costs, history)
    }

    /**
     * The tree is what the passes since the last reset built: `trace`
     * starts at the one-vertex tree and ends at the current one, and pass
     * `j` took `trace[j]` to `trace[j + 1]` with draw `drawn[j]`, adding
     * `outcomes[j]`.
     */
    ghost predicate Replayed()
      reads this`drawn, this`trace, this`outcomes, this`vertices, this`edges, this`parents, this`costs, this`history
    {
      Replays(drawn, trace, outcomes, Snapshot())
    }

    /** `Replayed`, for given draws, trace and outcomes ending at the tree `now`. */
    ghost predicate Replays(drawn: seq<Draw>, trace: seq<StarState>, outcomes: seq<Option<nat>>, now: StarState)
    {
      |trace| == |drawn| + 1 && |outcomes| == |drawn| &&
      trace[0] == StarState([start], [], [None], map[0 := Fin(0.0)], []) && trace[|drawn|] == now &&
      forall j :: 0 <= j < |drawn| ==> PassReplayed(drawn, trace, outcomes, j)
    }

    /** Pass `j` took `trace[j]` to `trace[j + 1]` with draw `drawn[j]`, adding `outcomes[j]`. */
    ghost predicate PassReplayed(drawn: seq<Draw>, trace: seq<StarState>, outcomes: seq<Option<nat>>, j: int)
    {
      0 <= j < |drawn| && j + 1 < |trace| && j < |outcomes| &&
      Extended(drawn[j], trace[j], trace[j + 1], outcomes[j])
    }

    constructor (start: Vec, goal: Vec, geo: Geometry, stepSize: real, goalSampleRate: real,
                 maxIter: int, searchRadius: real)
      ensures this.start == start && this.goal == goal && this.geo == geo
      ensures this.stepSize == stepSize && this.goalSampleRate == goalSampleRate
      ensures this.maxIter == maxIter && this.searchRadius == searchRadius
      ensures Valid() && vertices == [start] && edges == [] && parents == [None] && costs == map[0 := Fin(0.0)]
      ensures iterations == 0 && path == [] && pathLength == 0.0 && !success && history == []
      ensures Replayed() && drawn == []
    {
      this.start := start;
      this.goal := goal;
      this.geo := geo;
      this.stepSize := stepSize;
      this.goalSampleRate := goalSampleRate;
      this.maxIter := maxIter;
      this.searchRadius := searchRadius;
      vertices := [start];
      edges := [];
      parents := [None];
      costs := map[0 := Fin(0.0)];
      iterations := 0;
      path := [];
      pathLength := 0.0;
      success := false;
      history := [];
      drawn, trace, outcomes := [], [StarState([start], [], [None], map[0 := Fin(0.0)], [])], [];
      InitialStarTree(start, geo);
    }

    /** `reset`: the basic planner's reset, and the start's cost back to zero. */
    method Reset()
      modifies this`vertices, this`edges, this`parents, this`costs, this`iterations, this`path, this`pathLength
      modifies this`success, this`history, this`drawn, this`trace, this`outcomes
      ensures Valid() && vertices == [start] && edges == [] && parents == [None] && costs == map[0 := Fin(0.0)]
      ensures iterations == 0 && path == [] && pathLength == 0.0 && !success && history == []
      ensures Replayed() && drawn == []
    {
      ResetTree();
      iterations := 0;
      path := [];
      pathLength := 0.0;
      success := false;
    }

    /** The tree part of `reset`: the start alone, with cost zero, and no passes recorded. */
    method ResetTree()
      modifies this`vertices, this`edges, this`parents, this`costs, this`history, this`drawn, this`trace, this`outcomes
      ensures Valid() && vertices == [start] && edges == [] && parents == [None] && costs == map[0 := Fin(0.0)]
      ensures history == [] && Replayed() && drawn == []
    {
      vertices := [start];
      edges := [];
      parents := [None];
      history := [];
      costs := map[0 := Fin(0.0)];
      drawn, trace, outcomes := [], [StarState([start], [], [None], map[0 := Fin(0.0)], [])], [];
      InitialStarTree(start, geo);
    }

    /**
     * `near_vertices`: the indices of the vertices strictly inside `radius`
     * of `point`, sorted by `(distance, index)` and cut to the first 50.
     * They are the nearest inside vertices, nearest first.
     */
    method NearVertices(point: Vec, radius: real) returns (near: seq<nat>)
      ensures near == NearIndices(Distances(vertices, point, geo.dist), |vertices|, radius, MaxNear)
    {
      ghost var ds := Distances(vertices, point, geo.dist);
      var distances: seq<Pair> := [];
      var i := 0;
      while i < |vertices|
        invariant 0 <= i <= |vertices|
        invariant distances == RadiusPairs(ds, i, radius)
      {
        var distance := geo.dist(vertices[i], point);
        if distance < radius {
          distances := distances + [Pair(distance, i)];
        }
        i := i + 1;
      }
      near := IndicesOf(Take(SortPairs(distances), MaxNear));
    }

    /**
     * `new_cost`: the cost of reaching `toPoint` through `fromIdx`. A vertex
     * without a cost first gets one: zero for the start, otherwise its
     * parent's cost plus the edge, or `inf` when that is unknown.
     */
    method NewCost(fromIdx: nat, toPoint: Vec) returns (c: Cost)
      requires fromIdx < |vertices| && ParentsInRange(parents, |vertices|)
      modifies this`costs
      ensures fromIdx in old(costs) ==> costs == old(costs)
      ensures fromIdx !in old(costs) ==>
                costs == old(costs)[fromIdx := NewCostFill(geo, vertices, parents, old(costs), fromIdx)]
      ensures fromIdx in costs && c == Through(geo, vertices, costs, fromIdx, toPoint)
    {
      if fromIdx !in costs {
        costs := costs[fromIdx := NewCostFill(geo, vertices, parents, costs, fromIdx)];
      }
      var fromCost := costs[fromIdx];
      var toCost := geo.dist(vertices[fromIdx], toPoint);
      c := AddDist(fromCost, toCost);
    }

    /** The fill-in `rewire` performs for a vertex without a cost. */
    method FillCost(k: nat)
      requires k < |vertices| && ParentsInRange(parents, |vertices|)
      modifies this`costs
      ensures k in old(costs) ==> costs == old(costs)
      ensures k !in old(costs) ==> costs == old(costs)[k := ParentRoute(geo, vertices, parents, old(costs), k)]
    {
      if k !in costs {
        costs := costs[k := ParentRoute(geo, vertices, parents, costs, k)];
      }
    }

    /**
     * Step 7 of `plan`: among the near vertices with a collision-free edge to
     * the new point, the first one of least cost through it; when there is
     * none, the nearest vertex. The new vertex itself, whose cost is still
     * `inf`, is never chosen.
     */
    method ChooseParent(newIdx: nat, near: seq<nat>, nearestIdx: nat, newPoint: Vec) returns (minIdx: nat, minCost: Cost)
      requires ParentsInRange(parents, |vertices|) && PendingCosts(costs, |vertices|, newIdx)
      requires forall q :: 0 <= q < |near| ==> near[q] < |vertices|
      requires nearestIdx < |vertices| && nearestIdx != newIdx
      modifies this`costs
      ensures costs == old(costs)
      ensures minIdx < |vertices| && minIdx != newIdx
      ensures minCost.Fin? && minCost == Through(geo, vertices, costs, minIdx, newPoint)
      ensures (exists q :: 0 <= q < |near| && near[q] == minIdx && geo.free(vertices[minIdx], newPoint) &&
                 forall r :: 0 <= r < q && geo.free(vertices[near[r]], newPoint) ==>
                   Less(minCost, Through(geo, vertices, costs, near[r], newPoint))) ||
              (minIdx == nearestIdx &&
                 forall q :: 0 <= q < |near| && near[q] != newIdx ==> !geo.free(vertices[near[q]], newPoint))
      ensures forall q :: 0 <= q < |near| && geo.free(vertices[near[q]], newPoint) ==>
                !Less(Through(geo, vertices, costs, near[q], newPoint), minCost)
    {
      minCost := Inf;
      var chosen: Option<nat> := None;
      ghost var at := 0;
      var q := 0;
      while q < |near|
        invariant 0 <= q <= |near| && costs == old(costs)
        invariant chosen.None? ==>
                    minCost == Inf &&
                    forall r :: 0 <= r < q && near[r] != newIdx ==> !geo.free(vertices[near[r]], newPoint)
        invariant chosen.Some? ==>
                    at < q && near[at] == chosen.value && chosen.value != newIdx &&
                    geo.free(vertices[chosen.value], newPoint) && minCost.Fin? &&
                    minCost == Through(geo, vertices, costs, chosen.value, newPoint) &&
                    forall r :: 0 <= r < at && geo.free(vertices[near[r]], newPoint) ==>
                      Less(minCost, Through(geo, vertices, costs, near[r], newPoint))
        invariant forall r :: 0 <= r < q && geo.free(vertices[near[r]], newPoint) ==>
                    !Less(Through(geo, vertices, costs, near[r], newPoint), minCost)
      {
        var nearIdx := near[q];
        if geo.free(vertices[nearIdx], newPoint) {
          var cost := NewCost(nearIdx, newPoint);
          if Less(cost, minCost) {
            minCost, chosen, at := cost, Some(nearIdx), q;
          }
        }
        q := q + 1;
      }
      if chosen.None? {
        minIdx := nearestIdx;
        minCost := NewCost(nearestIdx, newPoint);
      } else {
        minIdx := chosen.value;
      }
    }

    /**
     * One pass of `rewire`'s loop: when the edge from the new vertex to
     * `nearIdx` is collision-free and the route through the new vertex is
     * strictly cheaper, `nearIdx` is re-parented under it, its old edge is
     * replaced, its cost lowered, and the edge recorded in the history.
     */
    method RewireStep(newIdx: nat, nearIdx: nat)
      requires Valid() && newIdx < |vertices| && nearIdx < |vertices|
      modifies this`parents, this`edges, this`costs, this`history
      ensures Valid()
      ensures RewireStepped(geo, vertices, newIdx, nearIdx, old(parents), old(edges), old(costs), old(history),
                            parents, edges, costs, history)
    {
      if nearIdx == newIdx {
        return;
      }
      FillCost(nearIdx);
      var newPoint := vertices[newIdx];
      if !geo.free(newPoint, vertices[nearIdx]) {
        return;
      }
      FillCost(newIdx);
      var cost := AddDist(costs[newIdx], geo.dist(newPoint, vertices[nearIdx]));
      if Less(cost, costs[nearIdx]) {
        StartNeverImproved(start, geo, vertices, edges, parents, costs, newIdx, geo.dist(newPoint, vertices[nearIdx]));
        RewireKeepsStarTree(start, geo, vertices, edges, parents, costs, newIdx, nearIdx, cost.amount);
        parents := parents[nearIdx := Some(newIdx)];
        edges := DropChild(edges, nearIdx) + [Edge(newIdx, nearIdx)];
        costs := costs[nearIdx := cost];
        history := history + [Edge(newIdx, nearIdx)];
      }
    }

    /**
     * `rewire`: offers the new vertex as a parent to each near vertex in
     * turn. Afterwards no near vertex with a collision-free edge from the new
     * vertex could still be reached more cheaply through it, no cost has
     * risen, the new vertex's own cost is untouched, and the history has
     * grown only by edges from the new vertex into near vertices.
     */
    method Rewire(newIdx: nat, near: seq<nat>)
      requires Valid() && newIdx < |vertices|
      requires forall q :: 0 <= q < |near| ==> near[q] < |vertices|
      modifies this`parents, this`edges, this`costs, this`history
      ensures Valid() && Settled(geo, vertices, costs, newIdx, near, |near|)
      ensures costs[newIdx] == old(costs)[newIdx] && NoCostRose(old(costs), costs, |vertices|)
      ensures RecordsFrom(old(history), history, newIdx, near)
      ensures parents[newIdx] == old(parents)[newIdx] && RewiredOnly(old(parents), parents, newIdx, near)
    {
      var q := 0;
      while q < |near|
        invariant 0 <= q <= |near| && Valid() && Settled(geo, vertices, costs, newIdx, near, q)
        invariant costs[newIdx] == old(costs)[newIdx] && NoCostRose(old(costs), costs, |vertices|)
        invariant RecordsFrom(old(history), history, newIdx, near)
        invariant parents[newIdx] == old(parents)[newIdx] && RewiredOnly(old(parents), parents, newIdx, near)
      {
        ghost var parents0, edges0, costs0, history0 := parents, edges, costs, history;
        RewireStep(newIdx, near[q]);
        RewireStepSettles(geo, vertices, newIdx, near, q, parents0, edges0, costs0, history0,
                          parents, edges, costs, history, old(history), old(parents));
        NoCostRoseTrans(old(costs), costs0, costs, |vertices|, |vertices|);
        q := q + 1;
      }
    }

    /** The state between appending a new vertex and giving it a parent: the rest is a tree and the new vertex costs `inf`. */
    ghost predicate Pending(k: nat)
      reads this`vertices, this`edges, this`parents, this`costs
    {
      |vertices| == k + 1 && k in costs && costs[k] == Inf &&
      StarTree(start, geo, vertices[..k], edges, parents, costs - {k})
    }

    /** Step 5 of one pass of `plan`'s loop: append the new point, with cost `inf` until it has a parent. */
    method AddVertex(newPoint: Vec) returns (k: nat)
      requires Valid()
      modifies this`vertices, this`costs
      ensures k == |old(vertices)| && vertices == old(vertices) + [newPoint] && costs == old(costs)[k := Inf]
      ensures vertices[..k] == old(vertices) && Pending(k) && NoCostRose(old(costs), costs, k)
    {
      vertices := vertices + [newPoint];
      k := |vertices| - 1;
      if k !in costs {
        costs := costs[k := Inf];
      }
      assert vertices[..k] == old(vertices);
      assert costs - {k} == old(costs);
    }

    /**
     * Step 7 of one pass of `plan`'s loop and the bookkeeping after it:
     * choose the new vertex's parent among its near vertices, then record
     * the parent, the edge, the cost through the parent and the history
     * entry.
     */
    method Link(k: nat, near: seq<nat>, nearestIdx: nat) returns (parentIdx: nat)
      requires Pending(k) && nearestIdx < k && geo.free(vertices[nearestIdx], vertices[k])
      requires forall q :: 0 <= q < |near| ==> near[q] < |vertices|
      modifies this`edges, this`parents, this`costs, this`history
      ensures Valid() && parentIdx < k && NoCostRose(old(costs), costs, k)
      ensures parents == old(parents) + [Some(parentIdx)]
      ensures edges == old(edges) + [Edge(parentIdx, k)] && history == old(history) + [Edge(parentIdx, k)]
      ensures costs == old(costs)[k := costs[k]] && costs[k] == Through(geo, vertices, costs, parentIdx, vertices[k])
      ensures ParentChosen(geo, vertices, old(costs), near, nearestIdx, k, parentIdx)
    {
      ghost var tree := costs - {k};
      PendingFacts(start, geo, vertices[..k], edges, parents, tree, vertices[k]);
      assert vertices[..k] + [vertices[k]] == vertices && tree[k := Inf] == costs;
      var minIdx, minCost := ChooseParent(k, near, nearestIdx, vertices[k]);
      InsertKeepsStarTree(start, geo, vertices[..k], edges, parents, tree, minIdx, vertices[k], minCost.amount);
      parents := parents + [Some(minIdx)];
      edges := edges + [Edge(minIdx, k)];
      costs := costs[k := minCost];
      assert costs == tree[k := Fin(minCost.amount)];
      history := history + [Edge(minIdx, k)];
      parentIdx := minIdx;
    }

    /** What one pass of `plan` does to the tree `t0`, leaving `t1`, given its random draw. */
    ghost predicate Extended(d: Draw, t0: StarState, t1: StarState, newIdx: Option<nat>)
    {
      ExtendedBy(geo, RandomSample(d, goalSampleRate, goal), stepSize, searchRadius, t0, t1, newIdx)
    }

    /**
     * One pass of `plan`'s loop without the counter: extend the tree and
     * note the draw, the tree after it and what it added.
     */
    method Grow(d: Draw) returns (newIdx: Option<nat>)
      requires Valid() && Replayed()
      modifies this`vertices, this`edges, this`parents, this`costs, this`history, this`drawn, this`trace, this`outcomes
      ensures Valid() && Replayed() && drawn == old(drawn) + [d] && outcomes == old(outcomes) + [newIdx]
      ensures trace == old(trace) + [Snapshot()]
      ensures newIdx.None? ==> vertices == old(vertices) && edges == old(edges) && parents == old(parents) &&
                               costs == old(costs) && history == old(history)
      ensures newIdx.Some? ==> |vertices| == newIdx.value + 1 && vertices[..newIdx.value] == old(vertices)
    {
      newIdx := Extend(d);
      ReplayedStep(drawn, trace, outcomes, d, Snapshot(), newIdx);
      drawn, trace, outcomes := drawn + [d], trace + [Snapshot()], outcomes + [newIdx];
    }

    /**
     * The last pass `Replayed` records took the tree before it to the
     * current one as `Extended` says.
     */
    lemma LastPass()
      requires Replayed() && |drawn| > 0
      ensures Extended(drawn[|drawn| - 1], trace[|drawn| - 1], Snapshot(), outcomes[|drawn| - 1])
    {
      assert PassReplayed(drawn, trace, outcomes, |drawn| - 1);
    }

    /** One more pass extends what `Replayed` records. */
    lemma ReplayedStep(drawn: seq<Draw>, trace: seq<StarState>, outcomes: seq<Option<nat>>,
                       d: Draw, t: StarState, o: Option<nat>)
      requires |trace| == |drawn| + 1 && |outcomes| == |drawn|
      requires forall j :: 0 <= j < |drawn| ==> PassReplayed(drawn, trace, outcomes, j)
      requires Extended(d, trace[|drawn|], t, o)
      ensures forall j :: 0 <= j < |drawn| + 1 ==> PassReplayed(drawn + [d], trace + [t], outcomes + [o], j)
    {
      var drawn', trace', outcomes' := drawn + [d], trace + [t], outcomes + [o];
      forall j | 0 <= j < |drawn'|
        ensures PassReplayed(drawn', trace', outcomes', j)
      {
        if j < |drawn| {
          assert PassReplayed(drawn, trace, outcomes, j);
          assert outcomes'[j] == outcomes[j] && drawn'[j] == drawn[j];
          assert trace'[j] == trace[j] && trace'[j + 1] == trace[j + 1];
        }
      }
    }

    /**
     * Steps 1 to 8 of one pass of `plan`'s loop: sample, steer from the
     * nearest vertex, and when the step is collision-free attach the new
     * vertex and rewire its neighbourhood. Returns the new vertex's index,
     * or `None` when the step collides and nothing changes. No cost rises.
     */
    method Extend(d: Draw) returns (newIdx: Option<nat>)
      requires Valid()
      modifies this`vertices, this`edges, this`parents, this`costs, this`history
      ensures Valid() && NoCostRose(old(costs), costs, |old(vertices)|)
      ensures Extended(d, old(Snapshot()), Snapshot(), newIdx)
      ensures newIdx.None? ==> vertices == old(vertices) && edges == old(edges) && parents == old(parents) &&
                               costs == old(costs) && history == old(history)
      ensures newIdx.Some? ==> |vertices| == newIdx.value + 1 && vertices[..newIdx.value] == old(vertices)
    {
      var randPoint := RandomSample(d, goalSampleRate, goal);
      var nearestIdx := NearestIndex(vertices, randPoint, geo.dist);
      var nearestPoint := vertices[nearestIdx];
      var newPoint := Steer(geo, nearestPoint, randPoint, stepSize);
      if !geo.free(nearestPoint, newPoint) {
        return None;
      }
      ghost var t0 := Snapshot();
      var k := AddVertex(newPoint);
      ghost var costs1 := costs;
      var near := NearVertices(newPoint, searchRadius);
      var parentIdx := Link(k, near, nearestIdx);
      NoCostRoseTrans(old(costs), costs1, costs, k, k);
      ghost var costs2 := costs;
      ghost var t1 := Snapshot();
      Rewire(k, near);
      NoCostRoseTrans(old(costs), costs2, costs, k, k + 1);
      LinkedThenRewired(geo, t0, t1, Snapshot(), near, nearestIdx, k, parentIdx);
      return Some(k);
    }

    /** Records the path to vertex `k` and its length as the search's result. */
    method RecordPath(k: nat)
      requires k < |vertices|
      modifies this`path, this`pathLength, this`success
      ensures success && path == PathTo(vertices, parents, k) && pathLength == PathLength(path, geo.dist)
      ensures |path| > 0 && path[|path| - 1] == vertices[k]
    {
      var found := ExtractPath(vertices, parents, k);
      var length := CalculatePathLength(found, geo.dist);
      PathToEndsAt(vertices, parents, k);
      path, pathLength, success := found, length, true;
    }

    /**
     * `plan`: iteration `i` uses random draw `draws(i)` and all `max_iter`
     * iterations run. Every new vertex within half a step of the goal
     * replaces the recorded path with the path to it, so at the end the
     * search has succeeded exactly when some vertex after the start is near
     * the goal, and the path ends at the last such vertex.
     */
    method Plan(draws: nat -> Draw)
      modifies this
      ensures Valid() && Replayed()
      ensures |drawn| == iterations && DrawnFrom(drawn, draws)
      ensures iterations == (if maxIter > 0 then maxIter else 0)
      ensures success <==> exists k :: 0 < k < |vertices| && GoalReached(geo, vertices[k], goal, stepSize)
      ensures !success ==> path == [] && pathLength == 0.0
      ensures success ==>
                |path| > 0 && pathLength == PathLength(path, geo.dist) &&
                exists k :: 0 < k < |vertices| && GoalReached(geo, vertices[k], goal, stepSize) &&
                  path[|path| - 1] == vertices[k] &&
                  forall j :: k < j < |vertices| ==> !GoalReached(geo, vertices[j], goal, stepSize)
    {
      Reset();
      ghost var last: nat := 0;
      var i := 0;
      while i < maxIter
        invariant Valid() && Replayed() && 0 <= i && iterations == i && (i <= maxIter || i == 0)
        invariant |drawn| == i && DrawnFrom(drawn, draws)
        invariant Outcome(last)
      {
        DrawnFromNext(drawn, draws);
        last := Iterate(i, draws(i), last);
        i := i + 1;
      }
      assert success ==> 0 < last < |vertices| && GoalReached(geo, vertices[last], goal, stepSize);
    }

    /**
     * One pass of `plan`'s loop: count it, extend the tree, and when the new
     * vertex is within half a step of the goal record the path to it.
     */
    method Iterate(i: nat, d: Draw, ghost last: nat) returns (ghost last': nat)
      requires Valid() && Replayed() && Outcome(last)
      modifies this`vertices, this`edges, this`parents, this`costs, this`history, this`drawn, this`trace, this`outcomes
      modifies this`iterations, this`path, this`pathLength, this`success
      ensures Valid() && Replayed() && Outcome(last') && iterations == i + 1 && drawn == old(drawn) + [d]
      ensures trace == old(trace) + [Snapshot()]
    {
      iterations := i + 1;
      ghost var n := |vertices|;
      var newIdx := Grow(d);
      assert vertices[..n] == old(vertices);
      last' := Record(newIdx, n, last);
    }

    /** Step 9 of one pass of `plan`'s loop: a new vertex within half a step of the goal gets its path recorded. */
    method Record(newIdx: Option<nat>, ghost n: nat, ghost last: nat) returns (ghost last': nat)
      requires Valid() && OutcomeUpTo(last, n)
      requires newIdx.None? ==> |vertices| == n
      requires newIdx.Some? ==> newIdx.value == n && |vertices| == n + 1
      modifies this`path, this`pathLength, this`success
      ensures Outcome(last')
    {
      last' := last;
      if newIdx.Some? && GoalReached(geo, vertices[newIdx.value], goal, stepSize) {
        RecordPath(newIdx.value);
        last' := newIdx.value;
      }
    }

    /**
     * What `plan` has found so far, with `last` the most recent vertex
     * within half a step of the goal (0 while there is none): no later
     * vertex is near the goal, and the recorded path ends at `last`.
     */
    ghost predicate Outcome(last: nat)
      reads this`vertices, this`success, this`path, this`pathLength
    {
      OutcomeUpTo(last, |vertices|)
    }

    /** `Outcome`, judged among the first `n` vertices only. */
    ghost predicate OutcomeUpTo(last: nat, n: nat)
      reads this`vertices, this`success, this`path, this`pathLength
    {
      last < n <= |vertices| &&
      (forall j :: last < j < n ==> !GoalReached(geo, vertices[j], goal, stepSize)) &&
      (success <==> last > 0) &&
      (success ==> GoalReached(geo, vertices[last], goal, stepSize) && |path| > 0 &&
                   pathLength == PathLength(path, geo.dist) && path[|path| - 1] == vertices[last]) &&
      (!success ==> path == [] && pathLength == 0.0)
    }

    /**
     * `get_details`, inherited from the basic planner: the configuration and
     * the outcome, with the basic planner's name; `nodes` counts the tree's
     * vertices.
     */
    function GetDetails(): (d: Details)
      reads this
      ensures d.nodes == |vertices| && d.success == success && d.iterations == iterations
      ensures Valid() ==> d.nodes == |parents|
    {
      Details("基础RRT算法", start, goal, stepSize, goalSampleRate, maxIter,
              success, pathLength, iterations, |vertices|)
    }
  }
}
