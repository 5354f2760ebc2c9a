/**
 * The RRT* planner of the top-level `algorithms` package. It differs from
 * the repaired planner in three ways: the near search truncates to the 50
 * nearest as it goes instead of sorting once at the end; `new_cost` reads
 * `costs[from_idx]` with no fallback; and `plan` stops at the first vertex
 * that reaches the goal.
 *
 * As written, `plan` appends the new vertex before searching its
 * neighbourhood and records its cost only after choosing its parent, so the
 * parent search can ask for the cost of the new vertex itself and raise
 * `KeyError` (`ChooseParent`, `NewVertexIsNear`). The planner below gives
 * the new vertex cost `inf` as soon as it is appended, as the repaired
 * planner does; then no search raises.
 */
module TopRrtStar {
  import opened Common
  import opened TreeCore
  import opened NearSets
  import opened StarCore
  import opened RrtStarPlanner

  /** `zip(distances, near_indices)` for the candidates `cand`, each distance measured to `point`. */
  function CandidateKeys(vertices: seq<Vec>, point: Vec, dist: (Vec, Vec) -> Length, cand: seq<nat>): (r: seq<Pair>)
    requires forall j :: 0 <= j < |cand| ==> cand[j] < |vertices|
    ensures r == Keys(Distances(vertices, point, dist), cand)
  {
    seq(|cand|, j requires 0 <= j < |cand| => Pair(dist(vertices[cand[j]], point), cand[j]))
  }

  /**
   * `near_vertices`: walks the vertices in order and appends each one
   * strictly inside `radius` of `point`; whenever the list grows past 50 it
   * is sorted by `(distance, index)` and cut back to the first 50. The
   * result holds the nearest inside vertices; while no more than 50 are
   * inside it lists all of them in index order.
   */
  method NearVertices(vertices: seq<Vec>, point: Vec, radius: real, dist: (Vec, Vec) -> Length) returns (near: seq<nat>)
    ensures IncrementalNear(Distances(vertices, point, dist), |vertices|, radius, MaxNear, near)
  {
    ghost var ds := Distances(vertices, point, dist);
    near := [];
    var i := 0;
    while i < |vertices|
      invariant 0 <= i <= |vertices| && near == NearAfter(ds, i, radius, MaxNear)
    {
      near := NearStep(vertices, point, radius, dist, i, near);
      i := i + 1;
    }
    NearAfterIsIncremental(ds, |vertices|, radius, MaxNear);
  }

  /** One pass of `near_vertices`' loop, for vertex `i`. */
  method NearStep(vertices: seq<Vec>, point: Vec, radius: real, dist: (Vec, Vec) -> Length, i: nat, near: seq<nat>)
    returns (near': seq<nat>)
    requires i < |vertices| && forall j :: 0 <= j < |near| ==> near[j] < |vertices|
    ensures near' == NextNear(Distances(vertices, point, dist), i, radius, MaxNear, near)
  {
    near' := near;
    var distance := dist(vertices[i], point);
    if distance < radius {
      near' := near' + [i];
      if |near'| > MaxNear {
        near' := Indices(Take(SortPairs(CandidateKeys(vertices, point, dist, near')), MaxNear));
      }
    }
  }

  /**
   * The incremental search and the repaired planner's sort-once search
   * select the same vertices.
   */
  lemma IncrementalIsNearest(vertices: seq<Vec>, point: Vec, radius: real, dist: (Vec, Vec) -> Length, near: seq<nat>)
    requires IncrementalNear(Distances(vertices, point, dist), |vertices|, radius, MaxNear, near)
    ensures forall x :: x in near <==> x in NearIndices(Distances(vertices, point, dist), |vertices|, radius, MaxNear)
  {
    var ds := Distances(vertices, point, dist);
    NearestUnique(ds, |vertices|, radius, MaxNear, near, NearIndices(ds, |vertices|, radius, MaxNear));
  }

  /**
   * The costs while `plan` looks for the new vertex `newIdx`'s parent:
   * every other vertex has a finite cost, and the new one either has none
   * (as written) or `inf` (once the cost is preset).
   */
  ghost predicate CostsAwaitingParent(costs: map<nat, Cost>, n: nat, newIdx: nat)
  {
    newIdx < n &&
    (forall k: nat :: k in costs ==> k < n) &&
    (forall k: nat :: k < n && k != newIdx ==> k in costs && costs[k].Fin?) &&
    (newIdx in costs ==> costs[newIdx] == Inf)
  }

  /** The outcome of step 7 of `plan`: a parent and the cost through it, or the `KeyError` `new_cost` raises. */
  datatype ParentChoice = KeyError | Chosen(idx: nat, cost: Cost)

  /**
   * A new vertex is inside any positive radius of itself, and while the
   * tree, the new vertex included, has at most 50 vertices the near search
   * keeps every inside vertex: so the new vertex is among its own near
   * vertices.
   */
  lemma NewVertexIsNear(vertices: seq<Vec>, dist: (Vec, Vec) -> Length, radius: real, near: seq<nat>)
    requires 0 < |vertices| <= MaxNear && 0.0 < radius
    requires dist(vertices[|vertices| - 1], vertices[|vertices| - 1]) == 0.0
    requires Nearest(Distances(vertices, vertices[|vertices| - 1], dist), |vertices|, radius, MaxNear, near)
    ensures |vertices| - 1 in near
  {
    var ds := Distances(vertices, vertices[|vertices| - 1], dist);
    var k := |vertices| - 1;
    var inside := InsideSet(ds, |vertices|, radius);
    InsideSetSize(ds, |vertices|, radius);
    CountInsideAtMost(ds, |vertices|, radius);
    assert k in inside;
    SubsetCardinality(Ahead(ds, |vertices|, radius, k), inside - {k});
    NearestSelects(ds, |vertices|, radius, MaxNear, near, k);
  }

  /**
   * On the first pass that adds a vertex `p`, `plan` as written searches
   * for a parent with the tree `[start, p]` and the costs `{0: 0.0}`: the
   * search's requirements hold, vertex 1 has no cost, and it is among the
   * near vertices of `p`. So when the zero-length edge from `p` to itself
   * is collision-free, `ChooseParent` raises `KeyError`.
   */
  lemma FirstStepRaises(start: Vec, p: Vec, dist: (Vec, Vec) -> Length, radius: real, near: seq<nat>)
    requires 0.0 < radius && dist(p, p) == 0.0
    requires Nearest(Distances([start, p], p, dist), 2, radius, MaxNear, near)
    ensures CostsAwaitingParent(map[0 := Fin(0.0)], 2, 1) && 1 !in map[0 := Fin(0.0)]
    ensures exists q :: 0 <= q < |near| && near[q] == 1
  {
    NewVertexIsNear([start, p], dist, radius, near);
  }

  /** The `get_details` dictionary of this planner: the basic entries, renamed, and the search radius. */
  datatype StarDetails = StarDetails(base: Details, searchRadius: real)

  class RrtStar {
    const start: Vec
    const goal: Vec
    const geo: Geometry
    const stepSize: real
    const goalSampleRate: real
    const maxIter: int
    const searchRadius: real
    var vertices: seq<Vec>
    var edges: seq<Edge>
    var parents: seq<Option<nat>>
    var costs: map<nat, Cost>
    var iterations: nat
    var path: seq<Vec>
    var pathLength: real
    var success: bool
    var history: seq<Edge>
    /** The draws the passes since the last reset used, the tree after each of them, and what each added. */
    ghost var drawn: seq<Draw>
    ghost var trace: seq<StarState>
    ghost var outcomes: seq<Option<nat>>

    ghost predicate Valid()
      reads this`vertices, this`edges, this`parents, this`costs
    {
      StarTree(start, geo, vertices, edges, parents, costs)
    }

    /** The tree as it stands. */
    ghost function Snapshot(): StarState
      reads this`vertices, this`edges, this`parents, this`costs, this`history
    {
      StarState(vertices, edges, parents, costs, history)
    }

    /**
     * The tree is what the passes since the last reset built: `trace`
     * starts at the one-vertex tree and ends at the current one, and pass
     * `j` took `trace[j]` to `trace[j + 1]` with draw `drawn[j]`, adding
     * `outcomes[j]`.
     */
    ghost predicate Replayed()
      reads this`drawn, this`trace, this`outcomes, this`vertices, this`edges, this`parents, this`costs, this`history
    {
      Replays(drawn, trace, outcomes, Snapshot())
    }

    /** `Replayed`, for given draws, trace and outcomes ending at the tree `now`. */
    ghost predicate Replays(drawn: seq<Draw>, trace: seq<StarState>, outcomes: seq<Option<nat>>, now: StarState)
    {
      |trace| == |drawn| + 1 && |outcomes| == |drawn| &&
      trace[0] == StarState([start], [], [None], map[0 := Fin(0.0)], []) && trace[|drawn|] == now &&
      forall j :: 0 <= j < |drawn| ==> PassReplayed(drawn, trace, outcomes, j)
    }

    /** Pass `j` took `trace[j]` to `trace[j + 1]` with draw `drawn[j]`, adding `outcomes[j]`. */
    ghost predicate PassReplayed(drawn: seq<Draw>, trace: seq<StarState>, outcomes: seq<Option<nat>>, j: int)
    {
      0 <= j < |drawn| && j + 1 < |trace| && j < |outcomes| &&
      Extended(drawn[j], trace[j], trace[j + 1], outcomes[j])
    }

    constructor (start: Vec, goal: Vec, geo: Geometry, stepSize: real, goalSampleRate: real,
                 maxIter: int, searchRadius: real)
      ensures this.start == start && this.goal == goal && this.geo == geo
      ensures this.stepSize == stepSize && this.goalSampleRate == goalSampleRate
      ensures this.maxIter == maxIter && this.searchRadius == searchRadius
      ensures Valid() && vertices == [start] && edges == [] && parents == [None] && costs == map[0 := Fin(0.0)]
      ensures iterations == 0 && path == [] && pathLength == 0.0 && !success && history == []
      ensures Replayed() && drawn == []
    {
      this.start := start;
      this.goal := goal;
      this.geo := geo;
      this.stepSize := stepSize;
      this.goalSampleRate := goalSampleRate;
      this.maxIter := maxIter;
      this.searchRadius := searchRadius;
      vertices := [start];
      edges := [];
      parents := [None];
      costs := map[0 := Fin(0.0)];
      iterations := 0;
      path := [];
      pathLength := 0.0;
      success := false;
      history := [];
      drawn, trace, outcomes := [], [StarState([start], [], [None], map[0 := Fin(0.0)], [])], [];
      InitialStarTree(start, geo);
    }

    /** `reset`: the basic planner's reset, and the start's cost back to zero. */
    method Reset()
      modifies this`vertices, this`edges, this`parents, this`costs, this`iterations, this`path, this`pathLength
      modifies this`success, this`history, this`drawn, this`trace, this`outcomes
      ensures Valid() && vertices == [start] && edges == [] && parents == [None] && costs == map[0 := Fin(0.0)]
      ensures iterations == 0 && path == [] && pathLength == 0.0 && !success && history == []
      ensures Replayed() && drawn == []
    {
      ResetTree();
      iterations := 0;
      path := [];
      pathLength := 0.0;
      success := false;
    }

    /** The tree part of `reset`: the start alone, with cost zero, and no passes recorded. */
    method ResetTree()
      modifies this`vertices, this`edges, this`parents, this`costs, this`history, this`drawn, this`trace, this`outcomes
      ensures Valid() && vertices == [start] && edges == [] && parents == [None] && costs == map[0 := Fin(0.0)]
      ensures history == [] && Replayed() && drawn == []
    {
      vertices := [start];
      edges := [];
      parents := [None];
      history := [];
      costs := map[0 := Fin(0.0)];
      drawn, trace, outcomes := [], [StarState([start], [], [None], map[0 := Fin(0.0)], [])], [];
      InitialStarTree(start, geo);
    }

    /**
     * `new_cost`: the cost of reaching `toPoint` through `fromIdx`, which
     * reads `costs[from_idx]` with no fallback and so raises `KeyError`
     * (`None`) exactly when `fromIdx` has no cost. The edge never makes the
     * route cheaper than `fromIdx` itself.
     */
    function NewCost(fromIdx: nat, toPoint: Vec): (c: Option<Cost>)
      reads this`vertices, this`costs
      requires fromIdx < |vertices|
      ensures c.Some? <==> fromIdx in costs
      ensures c.Some? ==> (c.value.Fin? <==> costs[fromIdx].Fin?) && !Less(c.value, costs[fromIdx])
    {
      if fromIdx in costs then
        AddDistNotLess(costs[fromIdx], geo.dist(vertices[fromIdx], toPoint));
        Some(AddDist(costs[fromIdx], geo.dist(vertices[fromIdx], toPoint)))
      else None
    }

    /**
     * Step 7 of `plan` as written: among the near vertices with a
     * collision-free edge to the new point, the first one of least cost
     * through it, or else the nearest vertex. It raises `KeyError` exactly
     * when the new vertex, still without a cost, is among the near vertices
     * with a collision-free edge to itself; with the new vertex's cost
     * preset to `inf` it never raises and never chooses the new vertex.
     */
    method ChooseParent(newIdx: nat, near: seq<nat>, nearestIdx: nat, newPoint: Vec) returns (choice: ParentChoice)
      requires CostsAwaitingParent(costs, |vertices|, newIdx)
      requires forall q :: 0 <= q < |near| ==> near[q] < |vertices|
      requires nearestIdx < |vertices| && nearestIdx != newIdx
      ensures choice.KeyError? <==>
                newIdx !in costs && exists q :: 0 <= q < |near| && near[q] == newIdx && geo.free(vertices[newIdx], newPoint)
      ensures choice.Chosen? ==>
                choice.idx < |vertices| && choice.idx != newIdx && choice.cost.Fin? &&
                choice.cost == Through(geo, vertices, costs, choice.idx, newPoint)
      ensures choice.Chosen? ==>
                (exists q :: 0 <= q < |near| && near[q] == choice.idx && geo.free(vertices[choice.idx], newPoint) &&
                   forall r :: 0 <= r < q && geo.free(vertices[near[r]], newPoint) && near[r] in costs ==>
                     Less(choice.cost, Through(geo, vertices, costs, near[r], newPoint))) ||
                (choice.idx == nearestIdx &&
                   forall q :: 0 <= q < |near| && near[q] != newIdx ==> !geo.free(vertices[near[q]], newPoint))
      ensures choice.Chosen? ==>
                forall q :: 0 <= q < |near| && geo.free(vertices[near[q]], newPoint) && near[q] in costs ==>
                  !Less(Through(geo, vertices, costs, near[q], newPoint), choice.cost)
    {
      var minCost := Inf;
      var chosen: Option<nat> := None;
      ghost var at := 0;
      var q := 0;
      while q < |near|
        invariant 0 <= q <= |near|
        invariant newIdx !in costs ==> forall r :: 0 <= r < q && near[r] == newIdx ==> !geo.free(vertices[newIdx], newPoint)
        invariant chosen.None? ==>
                    minCost == Inf &&
                    forall r :: 0 <= r < q && near[r] != newIdx ==> !geo.free(vertices[near[r]], newPoint)
        invariant chosen.Some? ==>
                    at < q && near[at] == chosen.value && chosen.value != newIdx &&
                    geo.free(vertices[chosen.value], newPoint) && minCost.Fin? &&
                    minCost == Through(geo, vertices, costs, chosen.value, newPoint) &&
                    forall r :: 0 <= r < at && geo.free(vertices[near[r]], newPoint) && near[r] in costs ==>
                      Less(minCost, Through(geo, vertices, costs, near[r], newPoint))
        invariant forall r :: 0 <= r < q && geo.free(vertices[near[r]], newPoint) && near[r] in costs ==>
                    !Less(Through(geo, vertices, costs, near[r], newPoint), minCost)
      {
        var nearIdx := near[q];
        if geo.free(vertices[nearIdx], newPoint) {
          var cost := NewCost(nearIdx, newPoint);
          if cost.None? {
            return KeyError;
          }
          if Less(cost.value, minCost) {
            minCost, chosen, at := cost.value, Some(nearIdx), q;
          }
        }
        q := q + 1;
      }
      if chosen.None? {
        var cost := NewCost(nearestIdx, newPoint);
        return Chosen(nearestIdx, cost.value);
      }
      return Chosen(chosen.value, minCost);
    }

    /**
     * One pass of `rewire`'s loop: when `nearIdx` is not the new vertex,
     * the edge from the new vertex to it is collision-free and the route
     * through the new vertex is strictly cheaper, `nearIdx` is re-parented
     * under it, its edges replaced by the single new one, its cost lowered,
     * and the edge recorded in the history.
     */
    method RewireStep(newIdx: nat, nearIdx: nat)
      requires Valid() && newIdx < |vertices| && nearIdx < |vertices|
      modifies this`parents, this`edges, this`costs, this`history
      ensures Valid()
      ensures RewireStepped(geo, vertices, newIdx, nearIdx, old(parents), old(edges), old(costs), old(history),
                            parents, edges, costs, history)
    {
      var newPoint := vertices[newIdx];
      if nearIdx == newIdx || !geo.free(newPoint, vertices[nearIdx]) {
        return;
      }
      var cost := AddDist(costs[newIdx], geo.dist(newPoint, vertices[nearIdx]));
      if Less(cost, costs[nearIdx]) {
        StartNeverImproved(start, geo, vertices, edges, parents, costs, newIdx, geo.dist(newPoint, vertices[nearIdx]));
        RewireKeepsStarTree(start, geo, vertices, edges, parents, costs, newIdx, nearIdx, cost.amount);
        parents := parents[nearIdx := Some(newIdx)];
        edges := DropChild(edges, nearIdx) + [Edge(newIdx, nearIdx)];
        costs := costs[nearIdx := cost];
        history := history + [Edge(newIdx, nearIdx)];
      }
    }

    /**
     * `rewire`: offers the new vertex as a parent to each near vertex in
     * turn. Afterwards no near vertex with a collision-free edge from the new
     * vertex could still be reached more cheaply through it, no cost has
     * risen, the new vertex's own cost is untouched, and the history has
     * grown only by edges from the new vertex into near vertices.
     */
    method Rewire(newIdx: nat, near: seq<nat>)
      requires Valid() && newIdx < |vertices|
      requires forall q :: 0 <= q < |near| ==> near[q] < |vertices|
      modifies this`parents, this`edges, this`costs, this`history
      ensures Valid() && Settled(geo, vertices, costs, newIdx, near, |near|)
      ensures costs[newIdx] == old(costs)[newIdx] && NoCostRose(old(costs), costs, |vertices|)
      ensures RecordsFrom(old(history), history, newIdx, near)
      ensures parents[newIdx] == old(parents)[newIdx] && RewiredOnly(old(parents), parents, newIdx, near)
    {
      var q := 0;
      while q < |near|
        invariant 0 <= q <= |near| && Valid() && Settled(geo, vertices, costs, newIdx, near, q)
        invariant costs[newIdx] == old(costs)[newIdx] && NoCostRose(old(costs), costs, |vertices|)
        invariant RecordsFrom(old(history), history, newIdx, near)
        invariant parents[newIdx] == old(parents)[newIdx] && RewiredOnly(old(parents), parents, newIdx, near)
      {
        ghost var parents0, edges0, costs0, history0 := parents, edges, costs, history;
        RewireStep(newIdx, near[q]);
        RewireStepSettles(geo, vertices, newIdx, near, q, parents0, edges0, costs0, history0,
                          parents, edges, costs, history, old(history), old(parents));
        NoCostRoseTrans(old(costs), costs0, costs, |vertices|, |vertices|);
        q := q + 1;
      }
    }

    /** The state between appending a new vertex and giving it a parent: the rest is a tree and the new vertex costs `inf`. */
    ghost predicate Pending(k: nat)
      reads this`vertices, this`edges, this`parents, this`costs
    {
      |vertices| == k + 1 && k in costs && costs[k] == Inf &&
      StarTree(start, geo, vertices[..k], edges, parents, costs - {k})
    }

    /**
     * Step 5 of one pass of `plan`'s loop, corrected: append the new point
     * and give it cost `inf` at once, so that no later lookup of its cost
     * can fail.
     */
    method AddVertex(newPoint: Vec) returns (k: nat)
      requires Valid()
      modifies this`vertices, this`costs
      ensures k == |old(vertices)| && vertices == old(vertices) + [newPoint] && costs == old(costs)[k := Inf]
      ensures vertices[..k] == old(vertices) && Pending(k) && NoCostRose(old(costs), costs, k)
    {
      vertices := vertices + [newPoint];
      k := |vertices| - 1;
      costs := costs[k := Inf];
      assert vertices[..k] == old(vertices);
      assert costs - {k} == old(costs);
    }

    /**
     * Step 7 of one pass of `plan`'s loop and the bookkeeping after it:
     * choose the new vertex's parent among its near vertices, which cannot
     * fail once its cost is preset, then record the parent, the edge, the
     * cost through the parent and the history entry.
     */
    method Link(k: nat, near: seq<nat>, nearestIdx: nat) returns (parentIdx: nat)
      requires Pending(k) && nearestIdx < k && geo.free(vertices[nearestIdx], vertices[k])
      requires forall q :: 0 <= q < |near| ==> near[q] < |vertices|
      modifies this`edges, this`parents, this`costs, this`history
      ensures Valid() && parentIdx < k && NoCostRose(old(costs), costs, k)
      ensures parents == old(parents) + [Some(parentIdx)]
      ensures edges == old(edges) + [Edge(parentIdx, k)] && history == old(history) + [Edge(parentIdx, k)]
      ensures costs == old(costs)[k := costs[k]] && costs[k] == Through(geo, vertices, costs, parentIdx, vertices[k])
      ensures ParentChosen(geo, vertices, old(costs), near, nearestIdx, k, parentIdx)
    {
      ghost var tree := costs - {k};
      PendingFacts(start, geo, vertices[..k], edges, parents, tree, vertices[k]);
      assert vertices[..k] + [vertices[k]] == vertices && tree[k := Inf] == costs;
      var choice := ChooseParent(k, near, nearestIdx, vertices[k]);
      var minIdx, minCost := choice.idx, choice.cost;
      InsertKeepsStarTree(start, geo, vertices[..k], edges, parents, tree, minIdx, vertices[k], minCost.amount);
      parents := parents + [Some(minIdx)];
      edges := edges + [Edge(minIdx, k)];
      costs := costs[k := minCost];
      assert costs == tree[k := Fin(minCost.amount)];
      history := history + [Edge(minIdx, k)];
      parentIdx := minIdx;
    }

    /**
     * What one pass of `plan` does to the tree `t0`, leaving `t1`, given its
     * random draw: the same step as the repaired planner's, since the
     * incremental near search selects the same near vertices.
     */
    ghost predicate Extended(d: Draw, t0: StarState, t1: StarState, newIdx: Option<nat>)
    {
      ExtendedBy(geo, RandomSample(d, goalSampleRate, goal), stepSize, searchRadius, t0, t1, newIdx)
    }

    /**
     * One pass of `plan`'s loop without the counter: extend the tree and
     * note the draw, the tree after it and what it added.
     */
    method Grow(d: Draw) returns (newIdx: Option<nat>)
      requires Valid() && Replayed()
      modifies this`vertices, this`edges, this`parents, this`costs, this`history, this`drawn, this`trace, this`outcomes
      ensures Valid() && Replayed() && drawn == old(drawn) + [d] && outcomes == old(outcomes) + [newIdx]
      ensures trace == old(trace) + [Snapshot()]
      ensures newIdx.None? ==> vertices == old(vertices) && edges == old(edges) && parents == old(parents) &&
                               costs == old(costs) && history == old(history)
      ensures newIdx.Some? ==> |vertices| == newIdx.value + 1 && vertices[..newIdx.value] == old(vertices)
    {
      newIdx := Extend(d);
      ReplayedStep(drawn, trace, outcomes, d, Snapshot(), newIdx);
      drawn, trace, outcomes := drawn + [d], trace + [Snapshot()], outcomes + [newIdx];
    }

    /**
     * The last pass `Replayed` records took the tree before it to the
     * current one as `Extended` says.
     */
    lemma LastPass()
      requires Replayed() && |drawn| > 0
      ensures Extended(drawn[|drawn| - 1], trace[|drawn| - 1], Snapshot(), outcomes[|drawn| - 1])
    {
      assert PassReplayed(drawn, trace, outcomes, |drawn| - 1);
    }

    /** One more pass extends what `Replayed` records. */
    lemma ReplayedStep(drawn: seq<Draw>, trace: seq<StarState>, outcomes: seq<Option<nat>>,
                       d: Draw, t: StarState, o: Option<nat>)
      requires |trace| == |drawn| + 1 && |outcomes| == |drawn|
      requires forall j :: 0 <= j < |drawn| ==> PassReplayed(drawn, trace, outcomes, j)
      requires Extended(d, trace[|drawn|], t, o)
      ensures forall j :: 0 <= j < |drawn| + 1 ==> PassReplayed(drawn + [d], trace + [t], outcomes + [o], j)
    {
      var drawn', trace', outcomes' := drawn + [d], trace + [t], outcomes + [o];
      forall j | 0 <= j < |drawn'|
        ensures PassReplayed(drawn', trace', outcomes', j)
      {
        if j < |drawn| {
          assert PassReplayed(drawn, trace, outcomes, j);
          assert outcomes'[j] == outcomes[j] && drawn'[j] == drawn[j];
          assert trace'[j] == trace[j] && trace'[j + 1] == trace[j + 1];
        }
      }
    }

    /**
     * Steps 1 to 8 of one pass of `plan`'s loop: sample, steer from the
     * nearest vertex, and when the step is collision-free attach the new
     * vertex and rewire its neighbourhood. Returns the new vertex's index,
     * or `None` when the step collides and nothing changes. No cost rises.
     */
    method Extend(d: Draw) returns (newIdx: Option<nat>)
      requires Valid()
      modifies this`vertices, this`edges, this`parents, this`costs, this`history
      ensures Valid() && NoCostRose(old(costs), costs, |old(vertices)|)
      ensures Extended(d, old(Snapshot()), Snapshot(), newIdx)
      ensures newIdx.None? ==> vertices == old(vertices) && edges == old(edges) && parents == old(parents) &&
                               costs == old(costs) && history == old(history)
      ensures newIdx.Some? ==> |vertices| == newIdx.value + 1 && vertices[..newIdx.value] == old(vertices)
    {
      var randPoint := RandomSample(d, goalSampleRate, goal);
      var nearestIdx := NearestIndex(vertices, randPoint, geo.dist);
      var nearestPoint := vertices[nearestIdx];
      var newPoint := Steer(geo, nearestPoint, randPoint, stepSize);
      if !geo.free(nearestPoint, newPoint) {
        return None;
      }
      ghost var t0 := Snapshot();
      var k := AddVertex(newPoint);
      ghost var costs1 := costs;
      var near := NearVertices(vertices, newPoint, searchRadius, geo.dist);
      var parentIdx := Link(k, near, nearestIdx);
      NoCostRoseTrans(old(costs), costs1, costs, k, k);
      ghost var costs2 := costs;
      ghost var t1 := Snapshot();
      Rewire(k, near);
      NoCostRoseTrans(old(costs), costs2, costs, k, k + 1);
      LinkedThenRewired(geo, t0, t1, Snapshot(), near, nearestIdx, k, parentIdx);
      return Some(k);
    }

    /** The success branch of `plan`: record the path to vertex `k` and its length. */
    method RecordPath(k: nat)
      requires Valid() && k < |vertices|
      modifies this`path, this`pathLength, this`success
      ensures success && path == PathTo(vertices, parents, k) && pathLength == PathLength(path, geo.dist)
      ensures |path| > 0 && path[|path| - 1] == vertices[k]
    {
      var found := ExtractPath(vertices, parents, k);
      var length := CalculatePathLength(found, geo.dist);
      PathToEndsAt(vertices, parents, k);
      path, pathLength, success := found, length, true;
    }

    /** No vertex after the start, among the first `n`, is within half a step of the goal. */
    ghost predicate NoneReached(n: nat)
      reads this`vertices
    {
      forall k :: 0 < k < n && k < |vertices| ==> !GoalReached(geo, vertices[k], goal, stepSize)
    }

    /**
     * `plan`: iteration `i` uses random draw `draws(i)`. A collision-free
     * step adds one vertex; the first added vertex within half a step of the
     * goal ends the search with the path to it. The tree is what those
     * passes built (`Replayed`), the last of them adding the vertex found.
     */
    method Plan(draws: nat -> Draw)
      modifies this
      ensures Valid() && Replayed()
      ensures iterations <= (if maxIter > 0 then maxIter else 0)
      ensures !success ==> iterations == (if maxIter > 0 then maxIter else 0)
      ensures Reported(success)
      ensures |drawn| == iterations && DrawnFrom(drawn, draws)
      ensures success ==> outcomes[iterations - 1] == Some(|vertices| - 1)
    {
      Reset();
      var i := 0;
      while i < maxIter
        invariant Valid() && Replayed() && Reported(false)
        invariant 0 <= i && iterations == i && (i <= maxIter || i == 0)
        invariant |drawn| == i && DrawnFrom(drawn, draws)
      {
        DrawnFromNext(drawn, draws);
        var found, added := Iterate(i, draws(i));
        if found {
          break;
        }
        i := i + 1;
      }
    }

    /**
     * One pass of `plan`'s loop: count it, extend the tree, and when the new
     * vertex is within half a step of the goal record the path to it and
     * report that the search is over.
     */
    method Iterate(i: nat, d: Draw) returns (found: bool, ghost added: Option<nat>)
      requires Valid() && Replayed() && Reported(false)
      modifies this`vertices, this`edges, this`parents, this`costs, this`history, this`drawn, this`trace, this`outcomes
      modifies this`iterations, this`path, this`pathLength, this`success
      ensures Valid() && Replayed() && iterations == i + 1 && Reported(found)
      ensures drawn == old(drawn) + [d] && outcomes == old(outcomes) + [added] && trace == old(trace) + [Snapshot()]
      ensures found ==> added == Some(|vertices| - 1)
    {
      iterations := i + 1;
      ghost var n := |vertices|;
      var newIdx := Grow(d);
      assert vertices[..n] == old(vertices);
      found := Record(newIdx, n);
      added := newIdx;
    }

    /**
     * Step 9 of one pass of `plan`'s loop: when the new vertex is within
     * half a step of the goal, record the path to it and report that the
     * search is over.
     */
    method Record(newIdx: Option<nat>, ghost n: nat) returns (found: bool)
      requires Valid() && !success && path == [] && pathLength == 0.0 && 0 < n <= |vertices| && NoneReached(n)
      requires newIdx.None? ==> |vertices| == n
      requires newIdx.Some? ==> newIdx.value == n && |vertices| == n + 1
      modifies this`path, this`pathLength, this`success
      ensures Reported(found) && (found ==> newIdx == Some(|vertices| - 1))
    {
      found := newIdx.Some? && GoalReached(geo, vertices[newIdx.value], goal, stepSize);
      if found {
        RecordPath(newIdx.value);
      }
    }

    /**
     * What step 9 leaves behind: when `found`, the search succeeded with the
     * path to the last vertex, which is within half a step of the goal and
     * the first such vertex after the start; otherwise no vertex is and
     * there is no path.
     */
    ghost predicate Reported(found: bool)
      reads this`vertices, this`parents, this`path, this`pathLength, this`success
    {
      success == found &&
      (!found ==> path == [] && pathLength == 0.0 && NoneReached(|vertices|)) &&
      (found ==>
         |vertices| >= 2 && GoalReached(geo, vertices[|vertices| - 1], goal, stepSize) &&
         path == PathTo(vertices, parents, |vertices| - 1) && pathLength == PathLength(path, geo.dist) &&
         |path| > 0 && path[|path| - 1] == vertices[|vertices| - 1] && NoneReached(|vertices| - 1))
    }

    /**
     * `get_details`: the basic planner's entries under this planner's name,
     * and the search radius; `nodes` counts the tree's vertices.
     */
    function GetDetails(): (d: StarDetails)
      reads this
      ensures d.base.name == "RRT* 算法" && d.searchRadius == searchRadius
      ensures d.base.nodes == |vertices| && d.base.success == success && d.base.iterations == iterations
      ensures Valid() ==> d.base.nodes == |parents|
    {
      StarDetails(Details("RRT* 算法", start, goal, stepSize, goalSampleRate, maxIter,
                          success, pathLength, iterations, |vertices|), searchRadius)
    }
  }
}
