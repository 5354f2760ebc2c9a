/**
 * The Informed RRT* planner. It grows and rewires its tree like the
 * repaired RRT* planner, using the top-level planner's incremental near
 * search. It differs in three ways:
 * - once a first solution is known, it samples inside the ellipse whose
 *   foci are the start and the goal and whose long axis is the best path
 *   length so far;
 * - it keeps searching after reaching the goal, keeping the shortest path
 *   length;
 * - every hundredth iteration after a solution, it shrinks the search
 *   radius within 30% to 100% of its configured value.
 */
module InformedRrtPlanner {
  import opened Common
  import opened TreeCore
  import opened NearSets
  import opened StarCore
  import opened RrtStarPlanner
  import opened TopRrtStar
  import opened ConfigSpace

  /** `max_attempts`: how many unit-disc draws one ellipse sample may try. */
  const MaxAttempts: nat := 100

  /**
   * The dictionary `compute_ellipse_transform` returns. The rotation `C`
   * follows from the start and the goal; `halfLong` is `r1` and
   * `halfShortSquared` is `r2 * r2`.
   */
  datatype Ellipse = Ellipse(center: Vec, focalDistance: real, halfLong: Cost, halfShortSquared: Cost)

  /**
   * `compute_ellipse_transform`: `None` when the start and the goal are
   * less than `1e-6` apart; otherwise the ellipse centred between them,
   * whose long axis is the best path length `best`.
   */
  function EllipseFor(start: Vec, goal: Vec, dist: (Vec, Vec) -> Length, best: Cost): (e: Option<Ellipse>)
    ensures e.None? <==> dist(goal, start) < 0.000001
    ensures e.Some? ==> e.value.focalDistance == dist(goal, start) && (e.value.halfLong.Fin? <==> best.Fin?)
    ensures e.Some? && best.Fin? ==>
              2.0 * e.value.halfLong.amount == best.amount &&
              e.value.halfShortSquared.Fin? && e.value.halfShortSquared.amount >= 0.0
    ensures e.Some? ==> 2.0 * e.value.center.x == start.x + goal.x && 2.0 * e.value.center.y == start.y + goal.y
    ensures e.Some? && best.Inf? ==> e.value.halfShortSquared.Inf?
    // the semi-axes and half the focal distance form a right triangle, once the
    // best length reaches the focal distance; below it the short axis collapses
    ensures e.Some? && best.Fin? ==>
              var c, r1, r2Sq := e.value.focalDistance, e.value.halfLong.amount, e.value.halfShortSquared.amount;
              if best.amount * best.amount > c * c then r1 * r1 == r2Sq + (c / 2.0) * (c / 2.0) else r2Sq == 0.0
  {
    var c := dist(goal, start);
    if c < 0.000001 then None
    else
      var center := Vec((start.x + goal.x) / 2.0, (start.y + goal.y) / 2.0);
      match best
      case Inf => Some(Ellipse(center, c, Inf, Inf))
      case Fin(b) =>
        var hSq := if b * b - c * c > 0.0 then b * b - c * c else 0.0;
        Some(Ellipse(center, c, Fin(b / 2.0), Fin(hSq / 4.0)))
  }

  /**
   * The random draws of one `informed_sample` call: `u` for the goal bias,
   * `regular` for a fallback to the basic sampler, and `balls(t)` the
   * point of the unit disc accepted on attempt `t`.
   */
  datatype InformedDraw = InformedDraw(u: real, regular: Draw, balls: nat -> Vec)

  /**
   * The attempts loop of `informed_sample`: maps up to 100 unit-disc points
   * into the ellipse with `place` and returns the first that lies inside
   * the bounds, or `None` when all of them fall outside.
   */
  method EllipseSample(e: Ellipse, place: (Ellipse, Vec) -> Vec, bounds: Bounds, balls: nat -> Vec)
    returns (r: Option<Vec>)
    ensures r.Some? ==>
              Inside(bounds, r.value) &&
              exists t :: 0 <= t < MaxAttempts && r.value == place(e, balls(t)) &&
                forall s :: 0 <= s < t ==> !Inside(bounds, place(e, balls(s)))
    ensures r.None? ==> forall t :: 0 <= t < MaxAttempts ==> !Inside(bounds, place(e, balls(t)))
  {
    var t := 0;
    while t < MaxAttempts
      invariant 0 <= t <= MaxAttempts
      invariant forall s :: 0 <= s < t ==> !Inside(bounds, place(e, balls(s)))
    {
      var sample := place(e, balls(t));
      if Inside(bounds, sample) {
        return Some(sample);
      }
      t := t + 1;
    }
    return None;
  }

  /**
   * `max(min(adjusted_radius, search_radius), search_radius * 0.3)`: the
   * adjusted radius kept between 30% and 100% of the configured one.
   */
  function ClampRadius(adjusted: real, radius: real): (r: real)
    ensures r >= 0.3 * radius
    ensures 0.0 <= radius ==> r <= radius
    ensures 0.3 * radius <= adjusted <= radius ==> r == adjusted
    ensures adjusted < 0.3 * radius ==> r == 0.3 * radius
  {
    var low := if adjusted <= radius then adjusted else radius;
    if low >= 0.3 * radius then low else 0.3 * radius
  }

  /** The parent table, edge list and cost dictionary `rewire` changes. */
  datatype Links = Links(parents: seq<Option<nat>>, edges: seq<Edge>, costs: map<nat, Cost>)

  /**
   * The rollback of `rewire`: `near` gets back its old parent and cost, and
   * its edges are replaced by the one from the old parent, if it had one.
   */
  function Rollback(l: Links, near: nat, oldParent: Option<nat>, oldCost: Cost): Links
    requires near < |l.parents|
  {
    Links(l.parents[near := oldParent],
          DropChild(l.edges, near) + (if oldParent.Some? then [Edge(oldParent.value, near)] else []),
          l.costs[near := oldCost])
  }

  /** Two edge lists in step with the same parent table hold the same edges. */
  lemma MatchingEdgesAgree(a: seq<Edge>, b: seq<Edge>, parents: seq<Option<nat>>)
    requires EdgesMatchParents(a, parents) && EdgesMatchParents(b, parents)
    ensures forall e :: e in a <==> e in b
  {
    forall e | e in a
      ensures e in b
    {
      assert HasEdgeInto(b, e.child);
    }
    forall e | e in b
      ensures e in a
    {
      assert HasEdgeInto(a, e.child);
    }
  }

  /**
   * Rolling back a rewire of `near` under `newIdx` restores the parent
   * table and the costs exactly, and the edge list up to order: the only
   * edge into `near` is again the one from its old parent.
   */
  lemma RollbackRestores(edges: seq<Edge>, parents: seq<Option<nat>>, costs: map<nat, Cost>,
                         newIdx: nat, near: nat, c: Cost)
    requires EdgesMatchParents(edges, parents)
    requires 0 < near < |parents| && newIdx < |parents| && near in costs
    requires parents[near].Some? && parents[near].value < |parents|
    ensures var rewired := Links(parents[near := Some(newIdx)], DropChild(edges, near) + [Edge(newIdx, near)],
                                 costs[near := c]);
            var rolled := Rollback(rewired, near, parents[near], costs[near]);
            rolled.parents == parents && rolled.costs == costs &&
            EdgesMatchParents(rolled.edges, parents) && (forall e :: e in rolled.edges <==> e in edges)
  {
    var parents' := parents[near := Some(newIdx)];
    var edges' := DropChild(edges, near) + [Edge(newIdx, near)];
    RewireKeepsEdges(edges, parents, newIdx, near);
    var oldParent := parents[near].value;
    RewireKeepsEdges(edges', parents', oldParent, near);
    assert parents'[near := Some(oldParent)] == parents;
    var rolled := Rollback(Links(parents', edges', costs[near := c]), near, parents[near], costs[near]);
    assert rolled.parents == parents;
    assert rolled.costs == costs;
    assert rolled.edges == DropChild(edges', near) + [Edge(oldParent, near)];
    MatchingEdgesAgree(rolled.edges, edges, parents);
  }

  /**
   * What one pass of `plan` drew and used: its draws, whether a solution
   * was known when it sampled, the ellipse it sampled from, the point it
   * sampled and the search radius it extended the tree with.
   */
  datatype Pass = Pass(draw: InformedDraw, solved: bool, ellipse: Option<Ellipse>, point: Vec, radius: real)

  /** Pass `j` used the draws `draws(j)`, for every pass so far. */
  ghost predicate DrawsUsed(passes: seq<Pass>, draws: nat -> InformedDraw)
  {
    forall j :: 0 <= j < |passes| ==> passes[j].draw == draws(j)
  }

  /** A pass that uses the next draws keeps `DrawsUsed`. */
  lemma DrawsUsedNext(passes: seq<Pass>, pass: Pass, draws: nat -> InformedDraw)
    requires DrawsUsed(passes, draws) && pass.draw == draws(|passes|)
    ensures DrawsUsed(passes + [pass], draws)
  {
    forall j | 0 <= j < |passes| + 1
      ensures (passes + [pass])[j].draw == draws(j)
    {
      if j < |passes| {
        assert (passes + [pass])[j] == passes[j];
      }
    }
  }

  /** The `get_details` dictionary of this planner: the RRT* entries, renamed, and the sampling statistics. */
  datatype InformedDetails = InformedDetails(
    star: StarDetails, bestPathLength: Cost, initialSolutionFound: bool,
    ellipseSamplesCount: nat, regularSamplesCount: nat, ellipseLongAxis: Option<Cost>)

  class InformedRrt {
    const start: Vec
    const goal: Vec
    const geo: Geometry
    const stepSize: real
    const goalSampleRate: real
    const maxIter: int
    const searchRadius: real
    /** The configuration space's bounds, for `is_in_bounds`. */
    const bounds: Bounds
    /** `center + C @ (L @ x)`: a unit-disc point mapped into an ellipse. */
    const place: (Ellipse, Vec) -> Vec
    /** `search_radius / sqrt(node_density * 1000)` for a tree of `n` vertices. */
    const adjustedRadius: nat -> real
    var vertices: seq<Vec>
    var edges: seq<Edge>
    var parents: seq<Option<nat>>
    var costs: map<nat, Cost>
    var iterations: nat
    var path: seq<Vec>
    var pathLength: real
    var success: bool
    var history: seq<Edge>
    var bestPathLength: Cost
    var ellipse: Option<Ellipse>
    var initialSolutionFound: bool
    var ellipseSamplesCount: nat
    var regularSamplesCount: nat
    /** The passes since the last reset, the tree after each of them, and what each added. */
    ghost var passes: seq<Pass>
    ghost var trace: seq<StarState>
    ghost var outcomes: seq<Option<nat>>

    ghost predicate Valid()
      reads this`vertices, this`edges, this`parents, this`costs
    {
      StarTree(start, geo, vertices, edges, parents, costs)
    }

    /** The tree as it stands. */
    ghost function Snapshot(): StarState
      reads this`vertices, this`edges, this`parents, this`costs, this`history
    {
      StarState(vertices, edges, parents, costs, history)
    }

    /**
     * The tree is what the passes since the last reset built: `trace`
     * starts at the one-vertex tree and ends at the current one, and pass
     * `j` sampled its point as `informed_sample` does and took `trace[j]`
     * to `trace[j + 1]` with it, adding `outcomes[j]`.
     */
    ghost predicate Replayed()
      reads this`passes, this`trace, this`outcomes, this`vertices, this`edges, this`parents, this`costs, this`history
    {
      Replays(passes, trace, outcomes, Snapshot())
    }

    /** `Replayed`, for given passes, trace and outcomes ending at the tree `now`. */
    ghost predicate Replays(passes: seq<Pass>, trace: seq<StarState>, outcomes: seq<Option<nat>>, now: StarState)
    {
      |trace| == |passes| + 1 && |outcomes| == |passes| &&
      trace[0] == StarState([start], [], [None], map[0 := Fin(0.0)], []) && trace[|passes|] == now &&
      forall j :: 0 <= j < |passes| ==> PassReplayed(passes, trace, outcomes, j)
    }

    /** Pass `j` took `trace[j]` to `trace[j + 1]` as `passes[j]` says, adding `outcomes[j]`. */
    ghost predicate PassReplayed(passes: seq<Pass>, trace: seq<StarState>, outcomes: seq<Option<nat>>, j: int)
    {
      0 <= j < |passes| && j + 1 < |trace| && j < |outcomes| &&
      Extended(passes[j], trace[j], trace[j + 1], outcomes[j])
    }

    /**
     * What a pass does to the tree `t0`, leaving `t1`: its point is one
     * `informed_sample` can return for its draws, and the tree is extended
     * towards it with the pass's search radius.
     */
    ghost predicate Extended(pass: Pass, t0: StarState, t1: StarState, newIdx: Option<nat>)
    {
      Sampled(pass.draw, pass.solved, pass.ellipse, pass.point) &&
      ExtendedBy(geo, pass.point, stepSize, pass.radius, t0, t1, newIdx)
    }

    /**
     * The point `informed_sample` returns for draws `d`, given whether a
     * solution is known and the ellipse it samples from: before a solution
     * the basic sample; afterwards the goal on a goal-bias draw, otherwise
     * the first of the 100 ellipse attempts that lies inside the bounds, or
     * the basic sample when there is no ellipse or every attempt lies
     * outside.
     */
    ghost predicate Sampled(d: InformedDraw, solved: bool, e: Option<Ellipse>, p: Vec)
    {
      if !solved then p == RandomSample(d.regular, goalSampleRate, goal)
      else if d.u < goalSampleRate then p == goal
      else if e.Some? && exists t :: 0 <= t < MaxAttempts && Inside(bounds, place(e.value, d.balls(t))) then
        Inside(bounds, p) &&
        exists t :: 0 <= t < MaxAttempts && p == place(e.value, d.balls(t)) &&
          forall s :: 0 <= s < t ==> !Inside(bounds, place(e.value, d.balls(s)))
      else p == RandomSample(d.regular, goalSampleRate, goal)
    }

    constructor (start: Vec, goal: Vec, geo: Geometry, stepSize: real, goalSampleRate: real,
                 maxIter: int, searchRadius: real, bounds: Bounds, place: (Ellipse, Vec) -> Vec,
                 adjustedRadius: nat -> real)
      ensures this.start == start && this.goal == goal && this.geo == geo
      ensures this.stepSize == stepSize && this.goalSampleRate == goalSampleRate
      ensures this.maxIter == maxIter && this.searchRadius == searchRadius
      ensures this.bounds == bounds && this.place == place && this.adjustedRadius == adjustedRadius
      ensures Valid() && vertices == [start] && edges == [] && parents == [None] && costs == map[0 := Fin(0.0)]
      ensures iterations == 0 && path == [] && pathLength == 0.0 && !success && history == []
      ensures bestPathLength == Inf && ellipse == None && !initialSolutionFound
      ensures ellipseSamplesCount == 0 && regularSamplesCount == 0
      ensures Replayed() && passes == []
    {
      this.start := start;
      this.goal := goal;
      this.geo := geo;
      this.stepSize := stepSize;
      this.goalSampleRate := goalSampleRate;
      this.maxIter := maxIter;
      this.searchRadius := searchRadius;
      this.bounds := bounds;
      this.place := place;
      this.adjustedRadius := adjustedRadius;
      vertices := [start];
      edges := [];
      parents := [None];
      costs := map[0 := Fin(0.0)];
      iterations := 0;
      path := [];
      pathLength := 0.0;
      success := false;
      history := [];
      bestPathLength := Inf;
      ellipse := None;
      initialSolutionFound := false;
      ellipseSamplesCount := 0;
      regularSamplesCount := 0;
      passes, trace, outcomes := [], [StarState([start], [], [None], map[0 := Fin(0.0)], [])], [];
      InitialStarTree(start, geo);
    }

    /** `reset`: the RRT* reset, and no best length, no ellipse, no solution and zero sample counts. */
    method Reset()
      modifies this`vertices, this`edges, this`parents, this`costs, this`iterations, this`path, this`pathLength
      modifies this`success, this`history, this`bestPathLength, this`ellipse, this`initialSolutionFound
      modifies this`ellipseSamplesCount, this`regularSamplesCount, this`passes, this`trace, this`outcomes
      ensures Valid() && vertices == [start] && edges == [] && parents == [None] && costs == map[0 := Fin(0.0)]
      ensures iterations == 0 && path == [] && pathLength == 0.0 && !success && history == []
      ensures bestPathLength == Inf && ellipse == None && !initialSolutionFound
      ensures ellipseSamplesCount == 0 && regularSamplesCount == 0
      ensures Replayed() && passes == []
    {
      ResetTree();
      iterations := 0;
      path := [];
      pathLength := 0.0;
      success := false;
      ResetSampling();
    }

    /** The tree part of `reset`: the start alone, with cost zero. */
    method ResetTree()
      modifies this`vertices, this`edges, this`parents, this`costs, this`history, this`passes, this`trace, this`outcomes
      ensures Valid() && vertices == [start] && edges == [] && parents == [None] && costs == map[0 := Fin(0.0)]
      ensures history == [] && Replayed() && passes == []
    {
      vertices := [start];
      edges := [];
      parents := [None];
      history := [];
      costs := map[0 := Fin(0.0)];
      passes, trace, outcomes := [], [StarState([start], [], [None], map[0 := Fin(0.0)], [])], [];
      InitialStarTree(start, geo);
    }

    /** The informed part of `reset`: no best length, no ellipse, no solution and zero sample counts. */
    method ResetSampling()
      modifies this`bestPathLength, this`ellipse, this`initialSolutionFound
      modifies this`ellipseSamplesCount, this`regularSamplesCount
      ensures bestPathLength == Inf && ellipse == None && !initialSolutionFound
      ensures ellipseSamplesCount == 0 && regularSamplesCount == 0
    {
      bestPathLength := Inf;
      ellipse := None;
      initialSolutionFound := false;
      ellipseSamplesCount := 0;
      regularSamplesCount := 0;
    }

    /**
     * `informed_sample`. Before the first solution it always samples like
     * the basic planner; afterwards it returns the goal with the goal-bias
     * probability, and otherwise an ellipse point inside the bounds, falling
     * back to the basic sampler when there is no ellipse or every attempt
     * lands outside. Every call but a goal-biased one counts exactly one
     * sample, as an ellipse sample when it returns an ellipse point and as a
     * regular one when it falls back.
     */
    method InformedSample(d: InformedDraw) returns (p: Vec)
      modifies this`ellipse, this`ellipseSamplesCount, this`regularSamplesCount
      ensures ellipseSamplesCount + regularSamplesCount ==
                old(ellipseSamplesCount + regularSamplesCount) +
                (if initialSolutionFound && d.u < goalSampleRate then 0 else 1)
      ensures old(ellipseSamplesCount) <= ellipseSamplesCount && old(regularSamplesCount) <= regularSamplesCount
      ensures !initialSolutionFound ==>
                regularSamplesCount == old(regularSamplesCount) + 1 && ellipse == old(ellipse)
      ensures initialSolutionFound && d.u < goalSampleRate ==> p == goal && ellipse == old(ellipse)
      ensures initialSolutionFound && !(d.u < goalSampleRate) ==>
                ellipse == (if old(ellipse).None? then EllipseFor(start, goal, geo.dist, bestPathLength) else old(ellipse))
      ensures regularSamplesCount > old(regularSamplesCount) ==> p == RandomSample(d.regular, goalSampleRate, goal)
      ensures ellipseSamplesCount > old(ellipseSamplesCount) ==>
                initialSolutionFound && ellipse.Some? && Inside(bounds, p) &&
                exists t :: 0 <= t < MaxAttempts && p == place(ellipse.value, d.balls(t))
      ensures Sampled(d, initialSolutionFound, ellipse, p)
    {
      if !initialSolutionFound {
        regularSamplesCount := regularSamplesCount + 1;
        return RandomSample(d.regular, goalSampleRate, goal);
      }
      if d.u < goalSampleRate {
        return goal;
      }
      if ellipse.None? {
        ellipse := EllipseFor(start, goal, geo.dist, bestPathLength);
        if ellipse.None? {
          regularSamplesCount := regularSamplesCount + 1;
          return RandomSample(d.regular, goalSampleRate, goal);
        }
      }
      var sample := EllipseSample(ellipse.value, place, bounds, d.balls);
      if sample.Some? {
        ellipseSamplesCount := ellipseSamplesCount + 1;
        return sample.value;
      }
      regularSamplesCount := regularSamplesCount + 1;
      return RandomSample(d.regular, goalSampleRate, goal);
    }

    /**
     * `new_cost`: the cost of reaching `toPoint` through `fromIdx`. A vertex
     * without a cost first gets one: zero for the start, otherwise its
     * parent's cost plus the edge, or `inf` when that is unknown.
     */
    method NewCost(fromIdx: nat, toPoint: Vec) returns (c: Cost)
      requires fromIdx < |vertices| && ParentsInRange(parents, |vertices|)
      modifies this`costs
      ensures fromIdx in old(costs) ==> costs == old(costs)
      ensures fromIdx !in old(costs) ==>
                costs == old(costs)[fromIdx := NewCostFill(geo, vertices, parents, old(costs), fromIdx)]
      ensures fromIdx in costs && c == Through(geo, vertices, costs, fromIdx, toPoint)
    {
      if fromIdx !in costs {
        costs := costs[fromIdx := NewCostFill(geo, vertices, parents, costs, fromIdx)];
      }
      var fromCost := costs[fromIdx];
      var toCost := geo.dist(vertices[fromIdx], toPoint);
      c := AddDist(fromCost, toCost);
    }

    /** The fill-in the parent search and `rewire` perform for a vertex without a cost. */
    method FillCost(k: nat)
      requires k < |vertices| && ParentsInRange(parents, |vertices|)
      modifies this`costs
      ensures k in old(costs) ==> costs == old(costs)
      ensures k !in old(costs) ==> costs == old(costs)[k := ParentRoute(geo, vertices, parents, old(costs), k)]
    {
      if k !in costs {
        costs := costs[k := ParentRoute(geo, vertices, parents, costs, k)];
      }
    }

    /**
     * Step 7 of `plan`: among the near vertices with a collision-free edge to
     * the new point, the first one of least cost through it; when there is
     * none, the nearest vertex. Each near vertex without a cost gets one
     * first. The new vertex itself, whose cost is still `inf`, is never
     * chosen.
     */
    method ChooseParent(newIdx: nat, near: seq<nat>, nearestIdx: nat, newPoint: Vec) returns (minIdx: nat, minCost: Cost)
      requires ParentsInRange(parents, |vertices|) && PendingCosts(costs, |vertices|, newIdx)
      requires forall q :: 0 <= q < |near| ==> near[q] < |vertices|
      requires nearestIdx < |vertices| && nearestIdx != newIdx
      modifies this`costs
      ensures costs == old(costs)
      ensures minIdx < |vertices| && minIdx != newIdx
      ensures minCost.Fin? && minCost == Through(geo, vertices, costs, minIdx, newPoint)
      ensures (exists q :: 0 <= q < |near| && near[q] == minIdx && geo.free(vertices[minIdx], newPoint) &&
                 forall r :: 0 <= r < q && geo.free(vertices[near[r]], newPoint) ==>
                   Less(minCost, Through(geo, vertices, costs, near[r], newPoint))) ||
              (minIdx == nearestIdx &&
                 forall q :: 0 <= q < |near| && near[q] != newIdx ==> !geo.free(vertices[near[q]], newPoint))
      ensures forall q :: 0 <= q < |near| && geo.free(vertices[near[q]], newPoint) ==>
                !Less(Through(geo, vertices, costs, near[q], newPoint), minCost)
    {
      minCost := Inf;
      var chosen: Option<nat> := None;
      ghost var at := 0;
      var q := 0;
      while q < |near|
        invariant 0 <= q <= |near| && costs == old(costs)
        invariant chosen.None? ==>
                    minCost == Inf &&
                    forall r :: 0 <= r < q && near[r] != newIdx ==> !geo.free(vertices[near[r]], newPoint)
        invariant chosen.Some? ==>
                    at < q && near[at] == chosen.value && chosen.value != newIdx &&
                    geo.free(vertices[chosen.value], newPoint) && minCost.Fin? &&
                    minCost == Through(geo, vertices, costs, chosen.value, newPoint) &&
                    forall r :: 0 <= r < at && geo.free(vertices[near[r]], newPoint) ==>
                      Less(minCost, Through(geo, vertices, costs, near[r], newPoint))
        invariant forall r :: 0 <= r < q && geo.free(vertices[near[r]], newPoint) ==>
                    !Less(Through(geo, vertices, costs, near[r], newPoint), minCost)
      {
        var nearIdx := near[q];
        FillCost(nearIdx);
        if geo.free(vertices[nearIdx], newPoint) {
          var cost := NewCost(nearIdx, newPoint);
          if Less(cost, minCost) {
            minCost, chosen, at := cost, Some(nearIdx), q;
          }
        }
        q := q + 1;
      }
      if chosen.None? {
        minIdx := nearestIdx;
        minCost := NewCost(nearestIdx, newPoint);
      } else {
        minIdx := chosen.value;
      }
    }

    /**
     * One pass of `rewire`'s loop: when the edge from the new vertex to
     * `nearIdx` is collision-free and the route through the new vertex is
     * strictly cheaper, `nearIdx` is re-parented under it, its old edge is
     * replaced, its cost lowered, and the edge recorded in the history. The
     * check that would trigger the rollback always passes right after the
     * update, so the rollback never runs here.
     */
    method RewireStep(newIdx: nat, nearIdx: nat)
      requires Valid() && newIdx < |vertices| && nearIdx < |vertices|
      modifies this`parents, this`edges, this`costs, this`history
      ensures Valid()
      ensures RewireStepped(geo, vertices, newIdx, nearIdx, old(parents), old(edges), old(costs), old(history),
                            parents, edges, costs, history)
    {
      if nearIdx == newIdx {
        return;
      }
      FillCost(nearIdx);
      var newPoint := vertices[newIdx];
      if !geo.free(newPoint, vertices[nearIdx]) {
        return;
      }
      FillCost(newIdx);
      var cost := AddDist(costs[newIdx], geo.dist(newPoint, vertices[nearIdx]));
      if Less(cost, costs[nearIdx]) {
        StartNeverImproved(start, geo, vertices, edges, parents, costs, newIdx, geo.dist(newPoint, vertices[nearIdx]));
        RewireKeepsStarTree(start, geo, vertices, edges, parents, costs, newIdx, nearIdx, cost.amount);
        parents := parents[nearIdx := Some(newIdx)];
        edges := DropChild(edges, nearIdx) + [Edge(newIdx, nearIdx)];
        costs := costs[nearIdx := cost];
        history := history + [Edge(newIdx, nearIdx)];
        assert parents[nearIdx] == Some(newIdx);
      }
    }

    /**
     * `rewire`: offers the new vertex as a parent to each near vertex in
     * turn. Afterwards no near vertex with a collision-free edge from the new
     * vertex could still be reached more cheaply through it, no cost has
     * risen, the new vertex's own cost is untouched, and the history has
     * grown only by edges from the new vertex into near vertices.
     */
    method Rewire(newIdx: nat, near: seq<nat>)
      requires Valid() && newIdx < |vertices|
      requires forall q :: 0 <= q < |near| ==> near[q] < |vertices|
      modifies this`parents, this`edges, this`costs, this`history
      ensures Valid() && Settled(geo, vertices, costs, newIdx, near, |near|)
      ensures costs[newIdx] == old(costs)[newIdx] && NoCostRose(old(costs), costs, |vertices|)
      ensures RecordsFrom(old(history), history, newIdx, near)
      ensures parents[newIdx] == old(parents)[newIdx] && RewiredOnly(old(parents), parents, newIdx, near)
    {
      var q := 0;
      while q < |near|
        invariant 0 <= q <= |near| && Valid() && Settled(geo, vertices, costs, newIdx, near, q)
        invariant costs[newIdx] == old(costs)[newIdx] && NoCostRose(old(costs), costs, |vertices|)
        invariant RecordsFrom(old(history), history, newIdx, near)
        invariant parents[newIdx] == old(parents)[newIdx] && RewiredOnly(old(parents), parents, newIdx, near)
      {
        ghost var parents0, edges0, costs0, history0 := parents, edges, costs, history;
        RewireStep(newIdx, near[q]);
        RewireStepSettles(geo, vertices, newIdx, near, q, parents0, edges0, costs0, history0,
                          parents, edges, costs, history, old(history), old(parents));
        NoCostRoseTrans(old(costs), costs0, costs, |vertices|, |vertices|);
        q := q + 1;
      }
    }

    /** The state between appending a new vertex and giving it a parent: the rest is a tree and the new vertex costs `inf`. */
    ghost predicate Pending(k: nat)
      reads this`vertices, this`edges, this`parents, this`costs
    {
      |vertices| == k + 1 && k in costs && costs[k] == Inf &&
      StarTree(start, geo, vertices[..k], edges, parents, costs - {k})
    }

    /** Step 5 of one pass of `plan`'s loop: append the new point, with cost `inf` until it has a parent. */
    method AddVertex(newPoint: Vec) returns (k: nat)
      requires Valid()
      modifies this`vertices, this`costs
      ensures k == |old(vertices)| && vertices == old(vertices) + [newPoint] && costs == old(costs)[k := Inf]
      ensures vertices[..k] == old(vertices) && Pending(k) && NoCostRose(old(costs), costs, k)
    {
      vertices := vertices + [newPoint];
      k := |vertices| - 1;
      if k !in costs {
        costs := costs[k := Inf];
      }
      assert vertices[..k] == old(vertices);
      assert costs - {k} == old(costs);
    }

    /**
     * Step 7 of one pass of `plan`'s loop and the bookkeeping after it:
     * choose the new vertex's parent among its near vertices, then record
     * the parent, the edge, the cost through the parent and the history
     * entry.
     */
    method Link(k: nat, near: seq<nat>, nearestIdx: nat) returns (parentIdx: nat)
      requires Pending(k) && nearestIdx < k && geo.free(vertices[nearestIdx], vertices[k])
      requires forall q :: 0 <= q < |near| ==> near[q] < |vertices|
      modifies this`edges, this`parents, this`costs, this`history
      ensures Valid() && parentIdx < k && NoCostRose(old(costs), costs, k)
      ensures parents == old(parents) + [Some(parentIdx)]
      ensures edges == old(edges) + [Edge(parentIdx, k)] && history == old(history) + [Edge(parentIdx, k)]
      ensures costs == old(costs)[k := costs[k]] && costs[k] == Through(geo, vertices, costs, parentIdx, vertices[k])
      ensures ParentChosen(geo, vertices, old(costs), near, nearestIdx, k, parentIdx)
    {
      ghost var tree := costs - {k};
      PendingFacts(start, geo, vertices[..k], edges, parents, tree, vertices[k]);
      assert vertices[..k] + [vertices[k]] == vertices && tree[k := Inf] == costs;
      var minIdx, minCost := ChooseParent(k, near, nearestIdx, vertices[k]);
      InsertKeepsStarTree(start, geo, vertices[..k], edges, parents, tree, minIdx, vertices[k], minCost.amount);
      parents := parents + [Some(minIdx)];
      edges := edges + [Edge(minIdx, k)];
      costs := costs[k := minCost];
      assert costs == tree[k := Fin(minCost.amount)];
      history := history + [Edge(minIdx, k)];
      parentIdx := minIdx;
    }

    /**
     * Steps 2 to 8 of one pass of `plan`'s loop, from the sampled point:
     * steer from the nearest vertex, and when the step is collision-free
     * attach the new vertex and rewire its neighbourhood within `radius`.
     * Returns the new vertex's index, or `None` when the step collides and
     * nothing changes. No cost rises.
     */
    method Extend(randPoint: Vec, radius: real) returns (newIdx: Option<nat>)
      requires Valid()
      modifies this`vertices, this`edges, this`parents, this`costs, this`history
      ensures Valid() && NoCostRose(old(costs), costs, |old(vertices)|)
      ensures ExtendedBy(geo, randPoint, stepSize, radius, old(Snapshot()), Snapshot(), newIdx)
      ensures newIdx.None? ==> vertices == old(vertices) && edges == old(edges) && parents == old(parents) &&
                               costs == old(costs) && history == old(history)
      ensures newIdx.Some? ==> |vertices| == newIdx.value + 1 && vertices[..newIdx.value] == old(vertices)
    {
      var nearestIdx := NearestIndex(vertices, randPoint, geo.dist);
      var nearestPoint := vertices[nearestIdx];
      var newPoint := Steer(geo, nearestPoint, randPoint, stepSize);
      if !geo.free(nearestPoint, newPoint) {
        return None;
      }
      ghost var t0 := Snapshot();
      var k := AddVertex(newPoint);
      ghost var costs1 := costs;
      var near := NearVertices(vertices, newPoint, radius, geo.dist);
      var parentIdx := Link(k, near, nearestIdx);
      NoCostRoseTrans(old(costs), costs1, costs, k, k);
      ghost var costs2 := costs;
      ghost var t1 := Snapshot();
      Rewire(k, near);
      NoCostRoseTrans(old(costs), costs2, costs, k, k + 1);
      LinkedThenRewired(geo, t0, t1, Snapshot(), near, nearestIdx, k, parentIdx);
      return Some(k);
    }

    /**
     * Steps 2 to 8 with the bookkeeping of the pass: extend the tree
     * towards the pass's point with its radius, and note the pass, the tree
     * after it and what it added.
     */
    method Grow(ghost pass: Pass, randPoint: Vec, radius: real) returns (newIdx: Option<nat>)
      requires Valid() && Replayed()
      requires pass.point == randPoint && pass.radius == radius && Sampled(pass.draw, pass.solved, pass.ellipse, randPoint)
      modifies this`vertices, this`edges, this`parents, this`costs, this`history, this`passes, this`trace, this`outcomes
      ensures Valid() && Replayed() && passes == old(passes) + [pass] && outcomes == old(outcomes) + [newIdx]
      ensures trace == old(trace) + [Snapshot()]
      ensures newIdx.None? ==> vertices == old(vertices) && edges == old(edges) && parents == old(parents) &&
                               costs == old(costs) && history == old(history)
      ensures newIdx.Some? ==> |vertices| == newIdx.value + 1 && vertices[..newIdx.value] == old(vertices)
    {
      newIdx := Extend(randPoint, radius);
      ReplayedStep(passes, trace, outcomes, pass, Snapshot(), newIdx);
      passes, trace, outcomes := passes + [pass], trace + [Snapshot()], outcomes + [newIdx];
    }

    /**
     * The last pass `Replays` records took the tree before it to `now`:
     * its point is one `informed_sample` can return and the tree grew
     * towards it as `Extended` says.
     */
    lemma ReplaysLast(passes: seq<Pass>, trace: seq<StarState>, outcomes: seq<Option<nat>>, now: StarState)
      requires Replays(passes, trace, outcomes, now) && |passes| > 0
      ensures Extended(passes[|passes| - 1], trace[|passes| - 1], now, outcomes[|passes| - 1])
    {
      assert PassReplayed(passes, trace, outcomes, |passes| - 1);
    }

    /** One more pass extends what `Replayed` records. */
    lemma ReplayedStep(passes: seq<Pass>, trace: seq<StarState>, outcomes: seq<Option<nat>>,
                       pass: Pass, t: StarState, o: Option<nat>)
      requires |trace| == |passes| + 1 && |outcomes| == |passes|
      requires forall j :: 0 <= j < |passes| ==> PassReplayed(passes, trace, outcomes, j)
      requires Extended(pass, trace[|passes|], t, o)
      ensures forall j :: 0 <= j < |passes| + 1 ==> PassReplayed(passes + [pass], trace + [t], outcomes + [o], j)
    {
      var passes', trace', outcomes' := passes + [pass], trace + [t], outcomes + [o];
      forall j | 0 <= j < |passes'|
        ensures PassReplayed(passes', trace', outcomes', j)
      {
        if j < |passes| {
          assert PassReplayed(passes, trace, outcomes, j);
          assert outcomes'[j] == outcomes[j] && passes'[j] == passes[j];
          assert trace'[j] == trace[j] && trace'[j + 1] == trace[j + 1];
        }
      }
    }

    /**
     * Step 9 of one pass of `plan`'s loop, for a new vertex `k` within half
     * a step of the goal: record the path to it and its length, and when
     * that length beats the best so far make it the best and recompute the
     * ellipse from it. Either way a solution is now known.
     */
    method RecordSolution(k: nat) returns (improved: bool)
      requires k < |vertices|
      modifies this`path, this`pathLength, this`success, this`bestPathLength, this`ellipse, this`initialSolutionFound
      ensures success && initialSolutionFound
      ensures path == PathTo(vertices, parents, k) && pathLength == PathLength(path, geo.dist)
      ensures |path| > 0 && path[|path| - 1] == vertices[k]
      ensures improved <==> Less(Fin(pathLength), old(bestPathLength))
      ensures improved ==> bestPathLength == Fin(pathLength) && ellipse == EllipseFor(start, goal, geo.dist, bestPathLength)
      ensures !improved ==> bestPathLength == old(bestPathLength) && ellipse == old(ellipse)
    {
      var found := ExtractPath(vertices, parents, k);
      var length := CalculatePathLength(found, geo.dist);
      PathToEndsAt(vertices, parents, k);
      path, pathLength := found, length;
      improved := Less(Fin(length), bestPathLength);
      if improved {
        bestPathLength := Fin(length);
        ellipse := EllipseFor(start, goal, geo.dist, bestPathLength);
      }
      initialSolutionFound := true;
      success := true;
    }

    /** No vertex of `vs` after the start, among the first `n`, is within half a step of the goal. */
    ghost predicate NoneReached(vs: seq<Vec>, n: nat)
    {
      forall k :: 0 < k < n && k < |vs| ==> !GoalReached(geo, vs[k], goal, stepSize)
    }

    /**
     * What the search knows between passes: a solution exactly when the
     * first one has been found; the last path found ends within half a step
     * of the goal and is no shorter than the best length, which is the
     * length of `bestPath`, another path ending there; the ellipse is the
     * one for the best length once a solution exists; and before that, no
     * vertex reaches the goal and no path or best length is recorded.
     */
    ghost predicate Outcome(bestPath: seq<Vec>)
      reads this`vertices, this`path, this`pathLength, this`success, this`bestPathLength
      reads this`ellipse, this`initialSolutionFound
    {
      OutcomeUpTo(bestPath, vertices, |vertices|)
    }

    /** `Outcome`, with only the first `n` vertices of `vs` kept away from the goal before a solution. */
    ghost predicate OutcomeUpTo(bestPath: seq<Vec>, vs: seq<Vec>, n: nat)
      reads this`path, this`pathLength, this`success, this`bestPathLength, this`ellipse, this`initialSolutionFound
    {
      success == initialSolutionFound && pathLength == PathLength(path, geo.dist) &&
      ellipse == (if initialSolutionFound then EllipseFor(start, goal, geo.dist, bestPathLength) else None) &&
      (!success ==> path == [] && bestPathLength == Inf && NoneReached(vs, n)) &&
      (success ==>
         |path| > 0 && GoalReached(geo, path[|path| - 1], goal, stepSize) &&
         |bestPath| > 0 && GoalReached(geo, bestPath[|bestPath| - 1], goal, stepSize) &&
         bestPathLength == Fin(PathLength(bestPath, geo.dist)) && bestPathLength.amount <= pathLength)
    }

    /**
     * The sample counters: at most one sample per pass, and only regular
     * ones, one per pass, until the first solution.
     */
    ghost predicate Counted()
      reads this`iterations, this`initialSolutionFound, this`ellipseSamplesCount, this`regularSamplesCount
    {
      ellipseSamplesCount + regularSamplesCount <= iterations &&
      (!initialSolutionFound ==> ellipseSamplesCount == 0 && regularSamplesCount == iterations)
    }

    /**
     * `plan`: iteration `i` uses the draws `draws(i)`. The search never
     * stops early. Afterwards every iteration has run; a solution is known
     * exactly when some vertex reached the goal, the best length is that of
     * a path to the goal and no longer than the last one found; and the
     * search radius used by every pass stayed within 30% to 100% of the
     * configured one.
     */
    method Plan(draws: nat -> InformedDraw) returns (ghost bestPath: seq<Vec>)
      modifies this
      ensures Valid() && Outcome(bestPath) && Counted()
      ensures iterations == (if maxIter > 0 then maxIter else 0)
      ensures success <==> bestPathLength.Fin?
      ensures Replayed() && |passes| == iterations && DrawsUsed(passes, draws)
    {
      Reset();
      bestPath := [];
      var radius := searchRadius;
      var i := 0;
      while i < maxIter
        invariant Valid() && Outcome(bestPath) && Counted() && Replayed()
        invariant 0 <= i && iterations == i && (i <= maxIter || i == 0)
        invariant |passes| == i && DrawsUsed(passes, draws)
        invariant 0.0 <= searchRadius ==> 0.3 * searchRadius <= radius <= searchRadius
        invariant !initialSolutionFound ==> radius == searchRadius
      {
        ghost var before, pass := passes, Pass(draws(i), false, None, start, 0.0);
        radius, bestPath, pass := Iterate(i, draws(i), radius, bestPath);
        DrawsUsedNext(before, pass, draws);
        i := i + 1;
      }
    }

    /**
     * One pass of `plan`'s loop: count it, sample, extend the tree with
     * search radius `radius`, record a solution when the new vertex reaches
     * the goal, and on every hundredth pass after a solution recompute the
     * radius from the tree's size. A colliding step leaves the tree and the
     * radius as they were. The best length never rises.
     */
    method Iterate(i: nat, d: InformedDraw, radius: real, ghost bestPath: seq<Vec>)
      returns (radius': real, ghost bestPath': seq<Vec>, ghost pass: Pass)
      requires Valid() && Outcome(bestPath) && Counted() && iterations == i && Replayed()
      modifies this`vertices, this`edges, this`parents, this`costs, this`history, this`passes, this`trace, this`outcomes
      modifies this`iterations, this`path, this`pathLength, this`success, this`bestPathLength, this`ellipse
      modifies this`initialSolutionFound, this`ellipseSamplesCount, this`regularSamplesCount
      ensures Valid() && Outcome(bestPath') && Counted() && iterations == i + 1
      ensures Replayed() && passes == old(passes) + [pass] && pass.draw == d && pass.radius == radius
      ensures |old(vertices)| <= |vertices| <= |old(vertices)| + 1 && vertices[..|old(vertices)|] == old(vertices)
      ensures !Less(old(bestPathLength), bestPathLength)
      ensures radius' == (if |vertices| > |old(vertices)| && initialSolutionFound && i % 100 == 0 && i > 0
                          then ClampRadius(adjustedRadius(|vertices|), searchRadius) else radius)
    {
      ghost var solved := initialSolutionFound;
      var randPoint := SampleStep(i, d, bestPath);
      pass := Pass(d, solved, ellipse, randPoint, radius);
      var extended;
      ghost var added;
      extended, bestPath', added := GrowStep(randPoint, radius, bestPath, pass);
      radius' := radius;
      if extended && initialSolutionFound && i % 100 == 0 && i > 0 {
        radius' := ClampRadius(adjustedRadius(|vertices|), searchRadius);
      }
    }

    /** Step 1 of one pass of `plan`'s loop: count the pass and sample a point as `informed_sample` does. */
    method SampleStep(i: nat, d: InformedDraw, ghost bestPath: seq<Vec>) returns (randPoint: Vec)
      requires Outcome(bestPath) && Counted() && iterations == i
      modifies this`iterations, this`ellipse, this`ellipseSamplesCount, this`regularSamplesCount
      ensures Outcome(bestPath) && Counted() && iterations == i + 1
      ensures Sampled(d, initialSolutionFound, ellipse, randPoint)
    {
      iterations := i + 1;
      randPoint := InformedSample(d);
    }

    /**
     * Steps 2 to 9 of one pass of `plan`'s loop: extend the tree towards
     * `randPoint` and record a solution when the new vertex reaches the
     * goal. Reports whether a vertex was added; the best length never rises
     * and a known solution stays known.
     */
    method GrowStep(randPoint: Vec, radius: real, ghost bestPath: seq<Vec>, ghost pass: Pass)
      returns (extended: bool, ghost bestPath': seq<Vec>, ghost added: Option<nat>)
      requires Valid() && Outcome(bestPath) && Counted() && Replayed()
      requires pass.point == randPoint && pass.radius == radius && Sampled(pass.draw, pass.solved, pass.ellipse, randPoint)
      modifies this`vertices, this`edges, this`parents, this`costs, this`history, this`passes, this`trace, this`outcomes
      modifies this`path, this`pathLength, this`success, this`bestPathLength, this`ellipse, this`initialSolutionFound
      ensures Valid() && Outcome(bestPath') && Counted() && Replayed() && passes == old(passes) + [pass]
      ensures trace == old(trace) + [Snapshot()] && outcomes == old(outcomes) + [added]
      ensures extended <==> added.Some?
      ensures extended <==> |vertices| > |old(vertices)|
      ensures |old(vertices)| <= |vertices| <= |old(vertices)| + 1 && vertices[..|old(vertices)|] == old(vertices)
      ensures !Less(old(bestPathLength), bestPathLength) && (old(initialSolutionFound) ==> initialSolutionFound)
    {
      ghost var n := |vertices|;
      var newIdx := Grow(pass, randPoint, radius);
      assert vertices[..n] == old(vertices);
      OutcomeGrown(bestPath, old(vertices), vertices, n);
      extended, added := newIdx.Some?, newIdx;
      ghost var grown := Snapshot();
      bestPath' := Reach(newIdx, n, bestPath);
      assert Snapshot() == grown;
    }

    /**
     * Step 9 of one pass of `plan`'s loop: when the new vertex reaches the
     * goal, record the solution, and make its path the best one when it is
     * shorter.
     */
    method Reach(newIdx: Option<nat>, ghost n: nat, ghost bestPath: seq<Vec>) returns (ghost bestPath': seq<Vec>)
      requires n <= |vertices| && OutcomeUpTo(bestPath, vertices, n) && Counted()
      requires newIdx.None? ==> |vertices| == n
      requires newIdx.Some? ==> newIdx.value == n && |vertices| == n + 1
      modifies this`path, this`pathLength, this`success, this`bestPathLength, this`ellipse, this`initialSolutionFound
      ensures Outcome(bestPath') && Counted()
      ensures !Less(old(bestPathLength), bestPathLength) && (old(initialSolutionFound) ==> initialSolutionFound)
    {
      bestPath' := bestPath;
      if newIdx.None? {
        return;
      }
      var k := newIdx.value;
      if GoalReached(geo, vertices[k], goal, stepSize) {
        var improved := RecordSolution(k);
        if improved {
          bestPath' := path;
        }
      }
    }

    /** Appending vertices after the first `n` keeps them as far from the goal as before. */
    lemma {:induction false} OutcomeGrown(bestPath: seq<Vec>, v0: seq<Vec>, vs: seq<Vec>, n: nat)
      requires OutcomeUpTo(bestPath, v0, n) && n <= |v0| <= |vs| && vs[..|v0|] == v0
      ensures OutcomeUpTo(bestPath, vs, n)
    {
      forall k | 0 < k < n && k < |vs|
        ensures vs[k] == v0[k]
      {
        assert vs[..|v0|][k] == vs[k];
      }
    }

    /**
     * `get_details`: the RRT* entries under this planner's name, the best
     * length, whether a solution is known, the sample counts and, when an
     * ellipse exists, its long axis, twice its half long axis.
     */
    function GetDetails(): (d: InformedDetails)
      reads this
      ensures d.star.base.name == "Informed RRT* 算法" && d.star.searchRadius == searchRadius
      ensures d.star.base.nodes == |vertices| && d.star.base.success == success && d.star.base.iterations == iterations
      ensures d.bestPathLength == bestPathLength && d.initialSolutionFound == initialSolutionFound
      ensures d.ellipseSamplesCount == ellipseSamplesCount && d.regularSamplesCount == regularSamplesCount
      ensures d.ellipseLongAxis.Some? <==> ellipse.Some?
      ensures ellipse.Some? && ellipse.value.halfLong.Fin? ==>
                d.ellipseLongAxis == Some(Fin(2.0 * ellipse.value.halfLong.amount))
    {
      var axis := match ellipse
        case None => None
        case Some(e) => Some(match e.halfLong case Inf => Inf case Fin(h) => Fin(2.0 * h));
      InformedDetails(
        StarDetails(Details("Informed RRT* 算法", start, goal, stepSize, goalSampleRate, maxIter,
                            success, pathLength, iterations, |vertices|), searchRadius),
        bestPathLength, initialSolutionFound, ellipseSamplesCount, regularSamplesCount, axis)
    }
  }
}
