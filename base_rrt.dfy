/**
 * The basic RRT planner: one tree grown from the start by steering the
 * nearest vertex towards random samples, stopping at the first new vertex
 * that lands within half a step of the goal.
 */
module BaseRrtPlanner {
  import opened Common
  import opened TreeCore

  /** The dictionary `get_details` returns (its timing entry is not modelled). */
  datatype Details = Details(
    name: string, start: Vec, goal: Vec, stepSize: real, goalSampleRate: real, maxIter: int,
    success: bool, pathLength: real, iterations: nat, nodes: nat)

  /**
   * What every expansion keeps: the start is vertex 0, each other vertex
   * has a parent with a smaller index, the edge list and the expansion
   * history both list `(parent, child)` for each vertex after the root in
   * order, and every edge passed the collision test.
   */
  ghost predicate GrownTree(start: Vec, g: Geometry, vertices: seq<Vec>, edges: seq<Edge>,
                            parents: seq<Option<nat>>, history: seq<Edge>)
  {
    |vertices| >= 1 && vertices[0] == start &&
    TreeShaped(parents, |vertices|) &&
    |edges| == |vertices| - 1 && history == edges &&
    (forall k :: 0 <= k < |edges| ==> edges[k] == Edge(parents[k + 1].value, k + 1)) &&
    (forall k :: 0 < k < |vertices| ==> g.free(vertices[parents[k].value], vertices[k]))
  }

  /** An accepted expansion from an existing vertex along a collision-free step keeps the tree grown. */
  lemma ExpandKeepsTree(start: Vec, g: Geometry, vertices: seq<Vec>, edges: seq<Edge>,
                        parents: seq<Option<nat>>, nearestIdx: nat, newPoint: Vec)
    requires GrownTree(start, g, vertices, edges, parents, edges)
    requires nearestIdx < |vertices| && g.free(vertices[nearestIdx], newPoint)
    ensures var e := Edge(nearestIdx, |vertices|);
            GrownTree(start, g, vertices + [newPoint], edges + [e], parents + [Some(nearestIdx)], edges + [e])
  {
  }

  class BaseRrt {
    const start: Vec
    const goal: Vec
    const geo: Geometry
    const stepSize: real
    const goalSampleRate: real
    const maxIter: int
    var vertices: seq<Vec>
    var edges: seq<Edge>
    var parents: seq<Option<nat>>
    var iterations: nat
    var path: seq<Vec>
    var pathLength: real
    var success: bool
    var history: seq<Edge>
    /** The draws the passes since the last reset used, the tree after each of them, and what each added. */
    ghost var drawn: seq<Draw>
    ghost var trace: seq<TreeState>
    ghost var outcomes: seq<Option<nat>>

    ghost predicate Valid()
      reads `vertices, `edges, `parents, `history
    {
      GrownTree(start, geo, vertices, edges, parents, history)
    }

    /**
     * The tree is what the passes since the last reset built: `trace`
     * starts at the one-vertex tree and ends at the current one, and pass
     * `j` took `trace[j]` to `trace[j + 1]` with draw `drawn[j]`, adding
     * `outcomes[j]`.
     */
    ghost predicate Replayed()
      reads `drawn, `trace, `outcomes, `vertices, `edges, `parents
    {
      |trace| == |drawn| + 1 && |outcomes| == |drawn| &&
      trace[0] == TreeState([start], [], [None]) && trace[|drawn|] == TreeState(vertices, edges, parents) &&
      forall j {:trigger outcomes[j]} :: 0 <= j < |drawn| ==> Grown(drawn[j], trace[j], trace[j + 1], outcomes[j])
    }

    constructor (start: Vec, goal: Vec, geo: Geometry, stepSize: real, goalSampleRate: real, maxIter: int)
      ensures this.start == start && this.goal == goal && this.geo == geo
      ensures this.stepSize == stepSize && this.goalSampleRate == goalSampleRate && this.maxIter == maxIter
      ensures Valid() && vertices == [start] && edges == [] && parents == [None]
      ensures iterations == 0 && path == [] && pathLength == 0.0 && !success && history == []
      ensures Replayed() && drawn == []
    {
      this.start := start;
      this.goal := goal;
      this.geo := geo;
      this.stepSize := stepSize;
      this.goalSampleRate := goalSampleRate;
      this.maxIter := maxIter;
      vertices := [start];
      edges := [];
      parents := [None];
      iterations := 0;
      path := [];
      pathLength := 0.0;
      success := false;
      history := [];
      drawn, trace, outcomes := [], [TreeState([start], [], [None])], [];
    }

    /** `reset`: a one-vertex tree at the start and cleared results. */
    method Reset()
      modifies `vertices, `edges, `parents, `iterations, `path, `pathLength, `success, `history
      modifies `drawn, `trace, `outcomes
      ensures Valid() && vertices == [start] && edges == [] && parents == [None]
      ensures iterations == 0 && path == [] && pathLength == 0.0 && !success && history == []
      ensures Replayed() && drawn == []
    {
      vertices := [start];
      edges := [];
      parents := [None];
      iterations := 0;
      path := [];
      pathLength := 0.0;
      success := false;
      history := [];
      drawn, trace, outcomes := [], [TreeState([start], [], [None])], [];
    }

    /**
     * What steps 1 to 5 do to the tree `t0`, leaving `t1`, given the random
     * draw: the nearest vertex to the sample is steered towards it; nothing
     * is added exactly when that step collides, and otherwise the steered
     * point is appended as a child of the nearest vertex.
     */
    ghost predicate Grown(d: Draw, t0: TreeState, t1: TreeState, newIdx: Option<nat>)
    {
      |t0.vertices| > 0 &&
      var q := RandomSample(d, goalSampleRate, goal);
      var n := NearestIndex(t0.vertices, q, geo.dist);
      var p := Steer(geo, t0.vertices[n], q, stepSize);
      (newIdx.None? <==> !geo.free(t0.vertices[n], p)) &&
      (newIdx.None? ==> t1 == t0) &&
      (newIdx.Some? ==>
         newIdx.value == |t0.vertices| &&
         t1 == TreeState(t0.vertices + [p], t0.edges + [Edge(n, newIdx.value)], t0.parents + [Some(n)]))
    }

    /**
     * Steps 1 to 5 of one pass of `plan`'s loop: sample, find the nearest
     * vertex, steer, and add the new vertex with its edge when the step is
     * collision-free. Returns the new vertex's index, or `None` when the step
     * collides and the tree is left as it was.
     */
    method Grow(d: Draw) returns (newIdx: Option<nat>)
      requires Valid() && Replayed()
      modifies this`vertices, this`edges, this`parents, this`history, this`drawn, this`trace, this`outcomes
      ensures Valid() && Replayed() && drawn == old(drawn) + [d] && outcomes == old(outcomes) + [newIdx]
      ensures Grown(d, old(TreeState(vertices, edges, parents)), TreeState(vertices, edges, parents), newIdx)
      ensures newIdx.None? ==> vertices == old(vertices) && edges == old(edges) && parents == old(parents)
      ensures newIdx.Some? ==> |vertices| == newIdx.value + 1 && vertices[..newIdx.value] == old(vertices)
    {
      newIdx := Expand(d);
      ReplayedStep(drawn, trace, outcomes, d, TreeState(vertices, edges, parents), newIdx);
      drawn, trace, outcomes := drawn + [d], trace + [TreeState(vertices, edges, parents)], outcomes + [newIdx];
    }

    /** Steps 1 to 5 without the bookkeeping of which draws were used. */
    method Expand(d: Draw) returns (newIdx: Option<nat>)
      requires Valid()
      modifies this`vertices, this`edges, this`parents, this`history
      ensures Valid()
      ensures Grown(d, old(TreeState(vertices, edges, parents)), TreeState(vertices, edges, parents), newIdx)
      ensures newIdx.None? ==> vertices == old(vertices) && edges == old(edges) && parents == old(parents)
      ensures newIdx.Some? ==> |vertices| == newIdx.value + 1 && vertices[..newIdx.value] == old(vertices)
    {
      var randPoint := RandomSample(d, goalSampleRate, goal);
      var nearestIdx := NearestIndex(vertices, randPoint, geo.dist);
      var nearestPoint := vertices[nearestIdx];
      var newPoint := Steer(geo, nearestPoint, randPoint, stepSize);
      if !geo.free(nearestPoint, newPoint) {
        return None;
      }
      ExpandKeepsTree(start, geo, vertices, edges, parents, nearestIdx, newPoint);
      var k := |vertices|;
      vertices, edges, parents, history :=
        vertices + [newPoint], edges + [Edge(nearestIdx, k)],
        parents + [Some(nearestIdx)], history + [Edge(nearestIdx, k)];
      assert vertices[..k] == old(vertices);
      return Some(k);
    }

    /** One more pass extends what `Replayed` records. */
    lemma ReplayedStep(drawn: seq<Draw>, trace: seq<TreeState>, outcomes: seq<Option<nat>>,
                       d: Draw, t: TreeState, o: Option<nat>)
      requires |trace| == |drawn| + 1 && |outcomes| == |drawn|
      requires forall j {:trigger outcomes[j]} :: 0 <= j < |drawn| ==> Grown(drawn[j], trace[j], trace[j + 1], outcomes[j])
      requires Grown(d, trace[|drawn|], t, o)
      ensures var drawn', trace', outcomes' := drawn + [d], trace + [t], outcomes + [o];
        forall j {:trigger outcomes'[j]} :: 0 <= j < |drawn'| ==> Grown(drawn'[j], trace'[j], trace'[j + 1], outcomes'[j])
    {
      var drawn', trace', outcomes' := drawn + [d], trace + [t], outcomes + [o];
      forall j | 0 <= j < |drawn'|
        ensures Grown(drawn'[j], trace'[j], trace'[j + 1], outcomes'[j])
      {
        if j < |drawn| {
          assert outcomes'[j] == outcomes[j] && drawn'[j] == drawn[j];
          assert trace'[j] == trace[j] && trace'[j + 1] == trace[j + 1];
        }
      }
    }

    /**
     * `plan`: iteration `i` uses random draw `draws(i)`. A collision-free
     * step adds one vertex; the first added vertex within half a step of the
     * goal ends the search with the path to it. The tree is what those
     * passes built (`Replayed`), the last of them adding the vertex found.
     */
    method Plan(draws: nat -> Draw)
      modifies this
      ensures Valid() && Replayed()
      ensures iterations <= (if maxIter > 0 then maxIter else 0)
      ensures !success ==> iterations == (if maxIter > 0 then maxIter else 0)
      ensures Reported(success)
      ensures |drawn| == iterations && DrawnFrom(drawn, draws)
      ensures success ==> outcomes[iterations - 1] == Some(|vertices| - 1)
    {
      Reset();
      var i := 0;
      while i < maxIter
        invariant Valid() && Replayed() && Reported(false)
        invariant 0 <= i && iterations == i && (i <= maxIter || i == 0)
        invariant |drawn| == i && DrawnFrom(drawn, draws)
      {
        DrawnFromNext(drawn, draws);
        var found, added := Iterate(i, draws(i));
        if found {
          break;
        }
        i := i + 1;
      }
    }

    /**
     * One pass of `plan`'s loop: count it, grow the tree, and when the new
     * vertex is within half a step of the goal record the path to it and
     * report that the search is over.
     */
    method Iterate(i: nat, d: Draw) returns (found: bool, ghost added: Option<nat>)
      requires Valid() && Replayed() && Reported(false)
      modifies `vertices, `edges, `parents, `history, `drawn, `trace, `outcomes, `iterations, `path, `pathLength, `success
      ensures Valid() && Replayed() && iterations == i + 1 && Reported(found)
      ensures drawn == old(drawn) + [d] && outcomes == old(outcomes) + [added]
      ensures Grown(d, old(TreeState(vertices, edges, parents)), TreeState(vertices, edges, parents), added)
      ensures found ==> added == Some(|vertices| - 1)
    {
      iterations := i + 1;
      ghost var n := |vertices|;
      var newIdx := Grow(d);
      assert vertices[..n] == old(vertices);
      found := Record(newIdx, n);
      added := newIdx;
    }

    /**
     * Step 6 of one pass of `plan`'s loop: when the new vertex is within
     * half a step of the goal, record the path to it and report that the
     * search is over.
     */
    method Record(newIdx: Option<nat>, ghost n: nat) returns (found: bool)
      requires Valid() && !success && path == [] && pathLength == 0.0 && 0 < n <= |vertices| && NoneReached(n)
      requires newIdx.None? ==> |vertices| == n
      requires newIdx.Some? ==> newIdx.value == n && |vertices| == n + 1
      modifies `path, `pathLength, `success
      ensures Reported(found)
    {
      found := newIdx.Some? && GoalReached(geo, vertices[newIdx.value], goal, stepSize);
      if found {
        RecordPath(newIdx.value);
      }
    }

    /**
     * What step 6 leaves behind: when `found`, the search succeeded with the
     * path to the last vertex, which is within half a step of the goal and the
     * first such vertex after the start; otherwise no vertex is and there is
     * no path.
     */
    ghost predicate Reported(found: bool)
      reads `vertices, `parents, `path, `pathLength, `success
    {
      success == found &&
      (!found ==> path == [] && pathLength == 0.0 && NoneReached(|vertices|)) &&
      (found ==>
         |vertices| >= 2 && GoalReached(geo, vertices[|vertices| - 1], goal, stepSize) &&
         path == PathTo(vertices, parents, |vertices| - 1) && pathLength == PathLength(path, geo.dist) &&
         |path| > 0 && path[0] == start && path[|path| - 1] == vertices[|vertices| - 1] &&
         NoneReached(|vertices| - 1))
    }

    /** No vertex after the start, among the first `n`, is within half a step of the goal. */
    ghost predicate NoneReached(n: nat)
      reads `vertices
    {
      forall k :: 0 < k < n && k < |vertices| ==> !GoalReached(geo, vertices[k], goal, stepSize)
    }

    /** The success branch of `plan`: record the path to vertex `k` and its length. */
    method RecordPath(k: nat)
      requires Valid() && k < |vertices|
      modifies `path, `pathLength, `success
      ensures success && path == PathTo(vertices, parents, k) && pathLength == PathLength(path, geo.dist)
      ensures |path| > 0 && path[0] == start && path[|path| - 1] == vertices[k]
    {
      var found := ExtractPath(vertices, parents, k);
      var length := CalculatePathLength(found, geo.dist);
      PathEndsInTree(vertices, parents, k);
      path, pathLength, success := found, length, true;
    }

    /** `get_details`: the configuration and the outcome; `nodes` counts the tree's vertices. */
    function GetDetails(): (d: Details)
      reads this
      ensures d.nodes == |vertices| && d.success == success && d.iterations == iterations
      ensures Valid() ==> d.nodes == |edges| + 1
    {
      Details("基础RRT算法", start, goal, stepSize, goalSampleRate, maxIter,
              success, pathLength, iterations, |vertices|)
    }
  }
}
