/**
 * RRT-Connect: two trees, one rooted at the start and one at the goal. Each
 * iteration extends one tree a step towards a random sample and then
 * connects the other tree to the new vertex step by step; the trees swap
 * roles after every iteration that does not connect.
 */
module RrtConnectPlanner {
  import opened Common
  import opened TreeCore

  /** Parent indices below child indices, and every edge passed the collision test. */
  ghost predicate TreeValid(g: Geometry, vs: seq<Vec>, ps: seq<Option<nat>>)
  {
    TreeShaped(ps, |vs|) &&
    forall k :: 0 < k < |vs| ==> g.free(vs[ps[k].value], vs[k])
  }

  /** Appending a vertex under an existing one along a collision-free step keeps a tree valid. */
  lemma AppendKeepsTreeValid(g: Geometry, vs: seq<Vec>, ps: seq<Option<nat>>, near: nat, p: Vec)
    requires TreeValid(g, vs, ps) && near < |vs| && g.free(vs[near], p)
    ensures TreeValid(g, vs + [p], ps + [Some(near)])
  {
  }

  /** A tree dictionary `{'vertices': [...], 'parents': {...}}`, grown in place by `extend`. */
  class Tree {
    var vertices: seq<Vec>
    var parents: seq<Option<nat>>

    ghost predicate Valid(g: Geometry)
      reads this
    {
      TreeValid(g, vertices, parents)
    }

    constructor (root: Vec)
      ensures vertices == [root] && parents == [None]
    {
      vertices := [root];
      parents := [None];
    }
  }

  datatype Status = Reached | Advanced | Trapped

  /** The distance from a tree's vertex nearest to `target` to `target`, counted in whole steps. */
  lemma FloorMonotone(a: real, b: real, s: real)
    requires s > 0.0 && 0.0 <= a <= b
    ensures 0 <= (a / s).Floor <= (b / s).Floor
  {
    assert a / s <= b / s by {
      assert b / s - a / s == (b - a) / s;
    }
  }

  ghost function StepsLeft(vs: seq<Vec>, target: Vec, g: Geometry, step: real): nat
    requires |vs| > 0 && step > 0.0
  {
    var d := g.dist(vs[NearestIndex(vs, target, g.dist)], target);
    FloorMonotone(0.0, d, step);
    (d / step).Floor
  }

  lemma FloorDropsByOne(a: real, b: real, s: real)
    requires s > 0.0 && 0.0 <= a <= b - s
    ensures 0 <= (a / s).Floor < (b / s).Floor
  {
    FloorMonotone(a, b - s, s);
    assert (b - s) / s == b / s - s / s;
    assert s / s == 1.0;
  }

  /**
   * A step added by `extend` never moves the tree away from the target, and
   * a step that does not reach it brings the tree one whole step closer.
   */
  lemma ExtendProgress(vs: seq<Vec>, target: Vec, g: Geometry, step: real)
    requires Steers(g, step) && |vs| > 0
    ensures var near := vs[NearestIndex(vs, target, g.dist)];
            var p := Steer(g, near, target, step);
            StepsLeft(vs + [p], target, g, step) <= StepsLeft(vs, target, g, step) &&
            (!(g.dist(p, target) < step) ==> StepsLeft(vs + [p], target, g, step) < StepsLeft(vs, target, g, step))
  {
    var near := vs[NearestIndex(vs, target, g.dist)];
    var p := Steer(g, near, target, step);
    var vs' := vs + [p];
    var near' := vs'[NearestIndex(vs', target, g.dist)];
    var d := g.dist(near, target);
    var d' := g.dist(near', target);
    assert vs'[NearestIndex(vs, target, g.dist)] == near;
    assert vs'[|vs|] == p;
    assert d' <= d;
    FloorMonotone(d', d, step);
    if !(g.dist(p, target) < step) {
      assert g.dist(target, target) == 0.0;
      assert !(g.dist(target, near) < step);
      assert g.dist(near, target) == g.dist(target, near);
      assert p == g.advance(near, target, step);
      assert d' <= d - step;
      FloorDropsByOne(d', d, step);
    }
  }

  /** `extend` from the tree `vs` towards `target` collides: the step from the nearest vertex is not free. */
  ghost predicate Blocked(g: Geometry, step: real, vs: seq<Vec>, target: Vec)
  {
    |vs| > 0 &&
    var n := NearestIndex(vs, target, g.dist);
    !g.free(vs[n], Steer(g, vs[n], target, step))
  }

  /** `p` is the vertex one successful `extend` from `vs` towards `target` adds, under `parent`. */
  ghost predicate ExtendsOnce(g: Geometry, step: real, target: Vec, vs: seq<Vec>, p: Vec, parent: Option<nat>)
  {
    |vs| > 0 &&
    var n := NearestIndex(vs, target, g.dist);
    p == Steer(g, vs[n], target, step) && g.free(vs[n], p) && parent == Some(n)
  }

  /**
   * The tree `vs`, `ps` is `vs0`, `ps0` grown by successive `extend` steps
   * towards `target`, each adding a vertex, and each but the last ending at
   * least a step away from the target (so it `advanced`).
   */
  ghost predicate Steps(g: Geometry, step: real, target: Vec, vs0: seq<Vec>, ps0: seq<Option<nat>>,
                        vs: seq<Vec>, ps: seq<Option<nat>>)
  {
    |vs0| <= |vs| && |ps| == |vs| && vs[..|vs0|] == vs0 && ps[..|vs0|] == ps0 &&
    forall m :: |vs0| <= m < |vs| ==> StepAt(g, step, target, |vs0|, vs, ps, m)
  }

  /** Vertex `m` of `vs` is the one the `extend` step after vertex `m - 1` added. */
  ghost predicate StepAt(g: Geometry, step: real, target: Vec, n0: nat, vs: seq<Vec>, ps: seq<Option<nat>>, m: int)
  {
    n0 <= m < |vs| && m < |ps| &&
    ExtendsOnce(g, step, target, vs[..m], vs[m], ps[m]) &&
    (m > n0 ==> g.dist(vs[m - 1], target) >= step)
  }

  /** One more `extend` step after one that advanced continues a run of `Steps`. */
  lemma StepsAppend(g: Geometry, step: real, target: Vec, vs0: seq<Vec>, ps0: seq<Option<nat>>,
                    vs: seq<Vec>, ps: seq<Option<nat>>, p: Vec, parent: Option<nat>)
    requires Steps(g, step, target, vs0, ps0, vs, ps)
    requires ExtendsOnce(g, step, target, vs, p, parent)
    requires |vs| > |vs0| ==> g.dist(vs[|vs| - 1], target) >= step
    ensures Steps(g, step, target, vs0, ps0, vs + [p], ps + [parent])
  {
    var vs', ps' := vs + [p], ps + [parent];
    assert vs'[..|vs0|] == vs0 && ps'[..|vs0|] == ps0 by {
      assert vs'[..|vs0|] == vs[..|vs0|] && ps'[..|vs0|] == ps[..|vs0|];
    }
    forall m | |vs0| <= m < |vs'|
      ensures StepAt(g, step, target, |vs0|, vs', ps', m)
    {
      if m < |vs| {
        assert StepAt(g, step, target, |vs0|, vs, ps, m);
        assert vs'[..m] == vs[..m] && vs'[m] == vs[m] && ps'[m] == ps[m];
      } else {
        assert vs'[..m] == vs && vs'[m] == p && ps'[m] == parent;
      }
    }
  }

  /**
   * What `connect` from `vs0`, `ps0` towards `target` leaves: a run of
   * `Steps`, `reached` exactly when it added a vertex within a step of the
   * target, and otherwise a next step that collides.
   */
  ghost predicate Connected(g: Geometry, step: real, target: Vec, vs0: seq<Vec>, ps0: seq<Option<nat>>,
                            vs: seq<Vec>, ps: seq<Option<nat>>, reached: bool)
  {
    Steps(g, step, target, vs0, ps0, vs, ps) &&
    (reached <==> |vs| > |vs0| && g.dist(vs[|vs| - 1], target) < step) &&
    (!reached ==> Blocked(g, step, vs, target))
  }

  /** The two trees, the one being extended first. */
  datatype Trees = Trees(av: seq<Vec>, ap: seq<Option<nat>>, bv: seq<Vec>, bp: seq<Option<nat>>)
  {
    /** `swap_trees` on the pair. */
    function Swap(): Trees
    {
      Trees(bv, bp, av, ap)
    }
  }

  /**
   * One pass of `plan`'s loop on the trees `t0` with sample `q`, leaving
   * `t1` in the same order: when the step of the first tree towards `q`
   * collides nothing changes and the trees do not meet; otherwise the first
   * tree gains that step's vertex and the second is what `connect` towards
   * it leaves, the trees meeting exactly when that reached it.
   */
  ghost predicate Iterated(g: Geometry, step: real, q: Vec, t0: Trees, t1: Trees, connected: bool)
  {
    if Blocked(g, step, t0.av, q) then t1 == t0 && !connected
    else
      var k := |t0.av|;
      |t1.av| == k + 1 && |t1.ap| == k + 1 &&
      t1.av == t0.av + [t1.av[k]] && t1.ap == t0.ap + [t1.ap[k]] &&
      ExtendsOnce(g, step, q, t0.av, t1.av[k], t1.ap[k]) &&
      Connected(g, step, t1.av[k], t0.bv, t0.bp, t1.bv, t1.bp, connected)
  }

  /** Vertex `k`, its parent's vertex, and so on up to the root's. */
  function RootWalk(vs: seq<Vec>, ps: seq<Option<nat>>, k: nat): (r: seq<Vec>)
    requires TreeShaped(ps, |vs|) && k < |vs|
    ensures |r| > 0 && r[0] == vs[k] && r[|r| - 1] == vs[0]
    decreases k
  {
    if k == 0 then [vs[0]] else [vs[k]] + RootWalk(vs, ps, ps[k].value)
  }

  /** The walk to the root visits exactly the vertices of `k`'s ancestor chain. */
  lemma {:induction false} RootWalkIsAncestors(vs: seq<Vec>, ps: seq<Option<nat>>, k: nat)
    requires TreeShaped(ps, |vs|) && k < |vs|
    ensures RootWalk(vs, ps, k) == Points(vs, Ancestors(ps, k))
    decreases k
  {
    if k != 0 {
      var p := ps[k].value;
      RootWalkIsAncestors(vs, ps, p);
      assert Ancestors(ps, k) == [k] + Ancestors(ps, p);
      assert Points(vs, [k] + Ancestors(ps, p)) == [vs[k]] + Points(vs, Ancestors(ps, p));
    }
  }

  /** The list `extract_path_from_trees` returns: root of the first tree to its vertex, then the second tree's vertex to its root. */
  function JoinedPath(sv: seq<Vec>, sp: seq<Option<nat>>, s: nat, gv: seq<Vec>, gp: seq<Option<nat>>, g: nat): seq<Vec>
    requires TreeShaped(sp, |sv|) && s < |sv| && TreeShaped(gp, |gv|) && g < |gv|
  {
    Reverse(RootWalk(sv, sp, s)) + RootWalk(gv, gp, g)
  }

  /**
   * The joined path begins at the first tree's root and ends at the second
   * tree's root, and the two connection vertices sit side by side in it.
   */
  lemma JoinedPathEnds(sv: seq<Vec>, sp: seq<Option<nat>>, s: nat, gv: seq<Vec>, gp: seq<Option<nat>>, g: nat)
    requires TreeShaped(sp, |sv|) && s < |sv| && TreeShaped(gp, |gv|) && g < |gv|
    ensures var path := JoinedPath(sv, sp, s, gv, gp, g);
            var m := |RootWalk(sv, sp, s)|;
            |path| >= 2 && path[0] == sv[0] && path[|path| - 1] == gv[0] &&
            path[m - 1] == sv[s] && path[m] == gv[g]
  {
  }

  /** The first half of the joined path is what `extract_path` would return for the same vertex. */
  lemma JoinedPathStartsLikeExtract(sv: seq<Vec>, sp: seq<Option<nat>>, s: nat, gv: seq<Vec>, gp: seq<Option<nat>>, g: nat)
    requires TreeShaped(sp, |sv|) && s < |sv| && TreeShaped(gp, |gv|) && g < |gv|
    ensures JoinedPath(sv, sp, s, gv, gp, g) == PathTo(sv, sp, s) + RootWalk(gv, gp, g)
  {
    ChainIsAncestors(sp, s, {});
    RootWalkIsAncestors(sv, sp, s);
  }

  /** One of the unguarded walks of `extract_path_from_trees`: vertex `k`, its parent's vertex, and so on to the root. */
  method WalkToRoot(vs: seq<Vec>, ps: seq<Option<nat>>, k: nat) returns (walk: seq<Vec>)
    requires TreeShaped(ps, |vs|) && k < |vs|
    ensures walk == RootWalk(vs, ps, k)
  {
    walk := [];
    var current: Option<nat> := Some(k);
    while current.Some?
      invariant current.Some? ==> current.value < |vs| && walk + RootWalk(vs, ps, current.value) == RootWalk(vs, ps, k)
      invariant current.None? ==> walk == RootWalk(vs, ps, k)
      decreases if current.Some? then current.value + 1 else 0
    {
      var c := current.value;
      if c != 0 {
        assert walk + RootWalk(vs, ps, c) == (walk + [vs[c]]) + RootWalk(vs, ps, ps[c].value);
      }
      walk := walk + [vs[c]];
      current := ps[c];
    }
  }

  /** One of `plan`'s loops over `parents.items()`: an edge `(parent + offset, child + offset)` per vertex with a parent. */
  method CollectEdges(ps: seq<Option<nat>>, offset: nat) returns (es: seq<Edge>)
    ensures es == TreeEdges(ps, offset)
  {
    es := [];
    var child := 0;
    while child < |ps|
      invariant 0 <= child <= |ps|
      invariant es == TreeEdges(ps[..child], offset)
    {
      assert ps[..child + 1][..child] == ps[..child];
      if ps[child].Some? {
        es := es + [Edge(ps[child].value + offset, child + offset)];
      }
      child := child + 1;
    }
    assert ps[..|ps|] == ps;
  }

  /** The edge list `plan` returns: the first tree's edges, the second's shifted past the first's vertices, and the connecting edge. */
  function MergedEdges(sp: seq<Option<nat>>, gp: seq<Option<nat>>, offset: nat, connection: Option<(nat, nat)>): seq<Edge>
  {
    TreeEdges(sp, 0) + TreeEdges(gp, offset) +
    (match connection
     case None => []
     case Some(c) => [Edge(c.0, c.1 + offset)])
  }

  /**
   * Every merged edge indexes into the concatenated vertex list, and there
   * are `(|Vs| - 1) + (|Vg| - 1)` of them plus one for a connection.
   */
  lemma MergedEdgesInRange(sv: seq<Vec>, sp: seq<Option<nat>>, gv: seq<Vec>, gp: seq<Option<nat>>, connection: Option<(nat, nat)>)
    requires TreeShaped(sp, |sv|) && TreeShaped(gp, |gv|)
    requires connection.Some? ==> connection.value.0 < |sv| && connection.value.1 < |gv|
    ensures var es := MergedEdges(sp, gp, |sv|, connection);
            |es| == (|sv| - 1) + (|gv| - 1) + (if connection.Some? then 1 else 0) &&
            forall k :: 0 <= k < |es| ==> es[k].parent < |sv + gv| && es[k].child < |sv + gv|
  {
    TreeEdgesOfTree(sp, 0);
    TreeEdgesOfTree(gp, |sv|);
    var es := MergedEdges(sp, gp, |sv|, connection);
    var a := TreeEdges(sp, 0);
    var b := TreeEdges(gp, |sv|);
    forall k | 0 <= k < |es|
      ensures es[k].parent < |sv + gv| && es[k].child < |sv + gv|
    {
      if k < |a| {
        assert es[k] == a[k];
      } else if k < |a| + |b| {
        assert es[k] == b[k - |a|];
      }
    }
  }

  /** The dictionary `get_details` returns (its timing entry is not modelled). */
  datatype Details = Details(
    name: string, start: Vec, goal: Vec, stepSize: real, goalSampleRate: real, maxIter: int,
    success: bool, pathLength: real, iterations: nat, nodes: nat,
    startTreeSize: Option<nat>, goalTreeSize: Option<nat>)

  /**
   * The two trees between iterations: both valid, rooted at the start and
   * the goal in the current order, every extension recorded once in the
   * history, and a connection naming the last vertex of each tree, the two
   * being within a step of each other.
   */
  ghost predicate TwoTrees(start: Vec, goal: Vec, g: Geometry, step: real, swapped: bool,
                           sv: seq<Vec>, sp: seq<Option<nat>>, gv: seq<Vec>, gp: seq<Option<nat>>,
                           history: seq<Edge>, found: bool, startIdx: Option<nat>, goalIdx: Option<nat>)
  {
    TreeValid(g, sv, sp) && TreeValid(g, gv, gp) &&
    sv[0] == (if swapped then goal else start) && gv[0] == (if swapped then start else goal) &&
    |history| == (|sv| - 1) + (|gv| - 1) &&
    (found ==> startIdx == Some(|sv| - 1) && goalIdx == Some(|gv| - 1) &&
               g.dist(gv[|gv| - 1], sv[|sv| - 1]) < step) &&
    (!found ==> startIdx.None? && goalIdx.None?)
  }

  /** Two one-vertex trees at the start and the goal, with nothing recorded, are two valid trees. */
  lemma InitialTwoTrees(start: Vec, goal: Vec, g: Geometry, step: real)
    ensures TwoTrees(start, goal, g, step, false, [start], [None], [goal], [None], [], false, None, None)
  {
  }

  /** Whether `n` is odd, one step at a time. */
  ghost predicate Odd(n: nat)
  {
    n != 0 && !Odd(n - 1)
  }

  class RrtConnect {
    const start: Vec
    const goal: Vec
    const geo: Geometry
    const stepSize: real
    const goalSampleRate: real
    const maxIter: int
    // The base planner's own tree, which this planner never grows.
    var vertices: seq<Vec>
    var edges: seq<Edge>
    var parents: seq<Option<nat>>
    var iterations: nat
    var path: seq<Vec>
    var pathLength: real
    var success: bool
    var history: seq<Edge>
    var startTree: Tree
    var goalTree: Tree
    // The `connection` dictionary.
    var found: bool
    var startIdx: Option<nat>
    var goalIdx: Option<nat>
    /** Whether `startTree` currently holds the tree rooted at the goal. */
    ghost var swapped: bool

    ghost predicate Valid()
      reads this`vertices, this`edges, this`parents, this`history, this`startTree, this`goalTree
      reads this`found, this`startIdx, this`goalIdx, this`swapped, startTree, goalTree
    {
      startTree != goalTree &&
      vertices == [start] && edges == [] && parents == [None] &&
      TwoTrees(start, goal, geo, stepSize, swapped, startTree.vertices, startTree.parents,
               goalTree.vertices, goalTree.parents, history, found, startIdx, goalIdx)
    }

    /** The two trees as they stand, the current start tree first. */
    ghost function Current(): Trees
      reads this`startTree, this`goalTree, startTree, goalTree
    {
      Trees(startTree.vertices, startTree.parents, goalTree.vertices, goalTree.parents)
    }

    /**
     * The passes of `plan`'s loop so far: pass `j` drew `drawn[j]` and took
     * the trees `rounds[j]` to the trees `rounds[j + 1]`, swapped back
     * unless it is the last pass and connected them.
     */
    ghost predicate Rounds(drawn: seq<Draw>, rounds: seq<Trees>, found: bool)
    {
      |rounds| == |drawn| + 1 &&
      forall j :: 0 <= j < |drawn| ==> RoundPlayed(drawn, rounds, found, j)
    }

    /** Pass `j` of `Rounds`. */
    ghost predicate RoundPlayed(drawn: seq<Draw>, rounds: seq<Trees>, found: bool, j: int)
    {
      0 <= j < |drawn| && |rounds| == |drawn| + 1 &&
      var last := found && j == |drawn| - 1;
      Iterated(geo, stepSize, RandomSample(drawn[j], goalSampleRate, goal), rounds[j],
               if last then rounds[j + 1] else rounds[j + 1].Swap(), last)
    }

    /** A pass that follows unconnected ones extends `Rounds`. */
    lemma RoundsStep(drawn: seq<Draw>, rounds: seq<Trees>, d: Draw, t: Trees, connected: bool)
      requires Rounds(drawn, rounds, false)
      requires Iterated(geo, stepSize, RandomSample(d, goalSampleRate, goal), rounds[|drawn|],
                        if connected then t else t.Swap(), connected)
      ensures Rounds(drawn + [d], rounds + [t], connected)
    {
      var drawn', rounds' := drawn + [d], rounds + [t];
      forall j | 0 <= j < |drawn'|
        ensures RoundPlayed(drawn', rounds', connected, j)
      {
        if j < |drawn| {
          assert RoundPlayed(drawn, rounds, false, j);
          assert drawn'[j] == drawn[j] && rounds'[j] == rounds[j] && rounds'[j + 1] == rounds[j + 1];
        }
      }
    }

    constructor (start: Vec, goal: Vec, geo: Geometry, stepSize: real, maxIter: int)
      ensures this.start == start && this.goal == goal && this.geo == geo
      ensures this.stepSize == stepSize && this.maxIter == maxIter && goalSampleRate == 0.0
      ensures Valid() && !swapped && !found
      ensures startTree.vertices == [start] && goalTree.vertices == [goal]
      ensures iterations == 0 && path == [] && pathLength == 0.0 && !success && history == []
    {
      this.start := start;
      this.goal := goal;
      this.geo := geo;
      this.stepSize := stepSize;
      this.goalSampleRate := 0.0;
      this.maxIter := maxIter;
      vertices, edges, parents := [start], [], [None];
      iterations, path, pathLength, success, history := 0, [], 0.0, false, [];
      startTree := new Tree(start);
      goalTree := new Tree(goal);
      found, startIdx, goalIdx := false, None, None;
      swapped := false;
    }

    /** The base planner's `reset`: its one-vertex tree and cleared results. */
    method ResetBase()
      modifies this`vertices, this`edges, this`parents, this`iterations
      modifies this`path, this`pathLength, this`success, this`history
      ensures vertices == [start] && edges == [] && parents == [None]
      ensures iterations == 0 && path == [] && pathLength == 0.0 && !success && history == []
    {
      vertices, edges, parents := [start], [], [None];
      iterations, path, pathLength, success, history := 0, [], 0.0, false, [];
    }

    /** `reset`: the base reset, two fresh one-vertex trees, and no connection. */
    method Reset()
      modifies this
      ensures Valid() && fresh(startTree) && fresh(goalTree) && !swapped && !found
      ensures startTree.vertices == [start] && goalTree.vertices == [goal]
      ensures Current() == Trees([start], [None], [goal], [None])
      ensures iterations == 0 && path == [] && pathLength == 0.0 && !success && history == []
    {
      ResetBase();
      var s := new Tree(start);
      var g := new Tree(goal);
      startTree, goalTree := s, g;
      InitialTwoTrees(start, goal, geo, stepSize);
      found, startIdx, goalIdx := false, None, None;
      swapped := false;
    }

    /**
     * `extend`: one step from the tree's vertex nearest to `target`. A
     * colliding step is `Trapped` and changes nothing; otherwise the new
     * vertex is appended under the nearest one, the pair is recorded in the
     * history, and the result is `Reached` when the new vertex is within one
     * step of the target.
     */
    method Extend(tree: Tree, target: Vec) returns (status: Status, newIdx: Option<nat>)
      requires tree.Valid(geo)
      modifies tree, this`history
      ensures tree.Valid(geo)
      ensures var vs := old(tree.vertices);
              var near := NearestIndex(vs, target, geo.dist);
              var p := Steer(geo, vs[near], target, stepSize);
              if !geo.free(vs[near], p) then
                status == Trapped && newIdx.None? &&
                tree.vertices == vs && tree.parents == old(tree.parents) && history == old(history)
              else
                newIdx == Some(|vs|) && tree.vertices == vs + [p] &&
                tree.parents == old(tree.parents) + [Some(near)] &&
                history == old(history) + [Edge(near, |vs|)] &&
                status == (if geo.dist(p, target) < stepSize then Reached else Advanced)
    {
      var nearestIdx := NearestIndex(tree.vertices, target, geo.dist);
      var nearestPoint := tree.vertices[nearestIdx];
      var newPoint := Steer(geo, nearestPoint, target, stepSize);
      if !geo.free(nearestPoint, newPoint) {
        return Trapped, None;
      }
      AppendKeepsTreeValid(geo, tree.vertices, tree.parents, nearestIdx, newPoint);
      var k := |tree.vertices|;
      tree.vertices, tree.parents := tree.vertices + [newPoint], tree.parents + [Some(nearestIdx)];
      history := history + [Edge(nearestIdx, k)];
      if geo.dist(newPoint, target) < stepSize {
        return Reached, Some(k);
      } else {
        return Advanced, Some(k);
      }
    }

    /**
     * `extend` together with the progress it makes towards `target`: a step
     * that adds a vertex never leaves the tree further from the target in
     * whole steps, and one that does not reach the target brings it a whole
     * step closer.
     */
    method ExtendTowards(tree: Tree, target: Vec) returns (status: Status, newIdx: Option<nat>)
      requires Steers(geo, stepSize) && tree.Valid(geo)
      modifies tree, this`history
      ensures tree.Valid(geo)
      ensures status == Trapped <==> newIdx.None?
      ensures newIdx.None? ==> tree.vertices == old(tree.vertices) && tree.parents == old(tree.parents) && history == old(history)
      ensures newIdx.Some? ==> newIdx.value == |old(tree.vertices)| && |tree.vertices| == newIdx.value + 1 &&
                               old(tree.vertices) <= tree.vertices && |history| == |old(history)| + 1
      ensures newIdx.Some? ==> StepsLeft(tree.vertices, target, geo, stepSize) <= StepsLeft(old(tree.vertices), target, geo, stepSize)
      ensures status == Advanced ==> StepsLeft(tree.vertices, target, geo, stepSize) < StepsLeft(old(tree.vertices), target, geo, stepSize)
      ensures status == Reached <==> newIdx.Some? && geo.dist(tree.vertices[|tree.vertices| - 1], target) < stepSize
      ensures newIdx.None? ==> Blocked(geo, stepSize, tree.vertices, target)
      ensures newIdx.Some? ==> ExtendsOnce(geo, stepSize, target, old(tree.vertices), tree.vertices[newIdx.value], tree.parents[newIdx.value]) &&
                               tree.vertices == old(tree.vertices) + [tree.vertices[newIdx.value]] &&
                               tree.parents == old(tree.parents) + [tree.parents[newIdx.value]]
    {
      ExtendProgress(tree.vertices, target, geo, stepSize);
      status, newIdx := Extend(tree, target);
    }

    /**
     * `connect`: extends repeatedly towards `target` until a step reaches it
     * or collides. A first step that collides gives `Trapped` with no index
     * and changes nothing; otherwise the result names the last vertex added.
     */
    method Connect(tree: Tree, target: Vec) returns (status: Status, lastIdx: Option<nat>)
      requires Steers(geo, stepSize) && tree.Valid(geo)
      modifies tree, this`history
      ensures tree.Valid(geo) && status != Advanced
      ensures old(tree.vertices) <= tree.vertices
      ensures |history| - |old(history)| == |tree.vertices| - |old(tree.vertices)|
      ensures lastIdx.None? <==> |tree.vertices| == |old(tree.vertices)|
      ensures lastIdx.None? ==> status == Trapped && tree.parents == old(tree.parents) && history == old(history)
      ensures lastIdx.Some? ==> lastIdx.value == |tree.vertices| - 1
      ensures status == Reached ==> lastIdx.Some? && geo.dist(tree.vertices[|tree.vertices| - 1], target) < stepSize
      ensures Connected(geo, stepSize, target, old(tree.vertices), old(tree.parents), tree.vertices, tree.parents, status == Reached)
    {
      ghost var vs0, ps0 := tree.vertices, tree.parents;
      status, lastIdx := ExtendTowards(tree, target);
      if lastIdx.Some? {
        StepsAppend(geo, stepSize, target, vs0, ps0, vs0, ps0, tree.vertices[lastIdx.value], tree.parents[lastIdx.value]);
      }
      if status == Advanced {
        status, lastIdx := KeepExtending(tree, target, vs0, ps0);
      }
    }

    /**
     * The loop of `connect` after a first step that advanced: it ends
     * because each step that does not reach the target brings the tree a
     * whole step closer to it.
     */
    method KeepExtending(tree: Tree, target: Vec, ghost vs0: seq<Vec>, ghost ps0: seq<Option<nat>>)
      returns (status: Status, lastIdx: Option<nat>)
      requires Steers(geo, stepSize) && tree.Valid(geo) && |tree.vertices| > |vs0|
      requires Steps(geo, stepSize, target, vs0, ps0, tree.vertices, tree.parents)
      requires geo.dist(tree.vertices[|tree.vertices| - 1], target) >= stepSize
      modifies tree, this`history
      ensures tree.Valid(geo) && status != Advanced
      ensures old(tree.vertices) <= tree.vertices
      ensures |history| - |old(history)| == |tree.vertices| - |old(tree.vertices)|
      ensures lastIdx == Some(|tree.vertices| - 1)
      ensures status == Reached ==> geo.dist(tree.vertices[|tree.vertices| - 1], target) < stepSize
      ensures Connected(geo, stepSize, target, vs0, ps0, tree.vertices, tree.parents, status == Reached)
    {
      status, lastIdx := Advanced, Some(|tree.vertices| - 1);
      while status != Reached
        invariant tree.Valid(geo) && |old(tree.vertices)| <= |tree.vertices|
        invariant tree.vertices[..|old(tree.vertices)|] == old(tree.vertices)
        invariant |history| - |old(history)| == |tree.vertices| - |old(tree.vertices)|
        invariant lastIdx == Some(|tree.vertices| - 1) && status != Trapped
        invariant Steps(geo, stepSize, target, vs0, ps0, tree.vertices, tree.parents) && |tree.vertices| > |vs0|
        invariant status == Advanced ==> geo.dist(tree.vertices[|tree.vertices| - 1], target) >= stepSize
        invariant status == Reached ==> geo.dist(tree.vertices[|tree.vertices| - 1], target) < stepSize
        decreases StepsLeft(tree.vertices, target, geo, stepSize), if status == Reached then 0 else 1
      {
        var newerIdx;
        status, newerIdx := ExtendAgain(tree, target, vs0, ps0);
        if status == Trapped {
          return Trapped, lastIdx;
        }
        lastIdx := newerIdx;
      }
    }

    /**
     * One step of `connect`'s loop, after steps that advanced: a step that
     * collides changes nothing, and any other continues the run of `Steps`
     * and brings the tree closer to the target in whole steps.
     */
    method ExtendAgain(tree: Tree, target: Vec, ghost vs0: seq<Vec>, ghost ps0: seq<Option<nat>>)
      returns (status: Status, newIdx: Option<nat>)
      requires Steers(geo, stepSize) && tree.Valid(geo) && |tree.vertices| > |vs0|
      requires Steps(geo, stepSize, target, vs0, ps0, tree.vertices, tree.parents)
      requires geo.dist(tree.vertices[|tree.vertices| - 1], target) >= stepSize
      modifies tree, this`history
      ensures tree.Valid(geo) && old(tree.vertices) <= tree.vertices
      ensures status == Trapped ==> newIdx.None? && tree.vertices == old(tree.vertices) && tree.parents == old(tree.parents) &&
                                    history == old(history) && Blocked(geo, stepSize, tree.vertices, target)
      ensures status != Trapped ==> newIdx == Some(|old(tree.vertices)|) && |tree.vertices| == |old(tree.vertices)| + 1 &&
                                    tree.vertices == old(tree.vertices) + [tree.vertices[|old(tree.vertices)|]] &&
                                    |history| == |old(history)| + 1 &&
                                    Steps(geo, stepSize, target, vs0, ps0, tree.vertices, tree.parents) &&
                                    StepsLeft(tree.vertices, target, geo, stepSize) <= StepsLeft(old(tree.vertices), target, geo, stepSize)
      ensures status == Reached ==> geo.dist(tree.vertices[|tree.vertices| - 1], target) < stepSize
      ensures status == Advanced ==> geo.dist(tree.vertices[|tree.vertices| - 1], target) >= stepSize &&
                                     StepsLeft(tree.vertices, target, geo, stepSize) < StepsLeft(old(tree.vertices), target, geo, stepSize)
    {
      ghost var vs, ps := tree.vertices, tree.parents;
      status, newIdx := ExtendTowards(tree, target);
      if newIdx.Some? {
        StepsAppend(geo, stepSize, target, vs0, ps0, vs, ps, tree.vertices[newIdx.value], tree.parents[newIdx.value]);
      }
    }

    /** `swap_trees`: applied twice it restores both trees. */
    method SwapTrees()
      modifies this`startTree, this`goalTree, this`swapped
      ensures startTree == old(goalTree) && goalTree == old(startTree) && swapped == !old(swapped)
    {
      startTree, goalTree := goalTree, startTree;
      swapped := !swapped;
    }

    /**
     * Steps 1 to 3 of one pass of `plan`'s loop: sample, extend the current
     * start tree, and when that adds a vertex connect the other tree to it.
     * Returns whether the trees met, in which case the connection records
     * the two meeting vertices.
     */
    method Iteration(d: Draw) returns (connected: bool)
      requires Valid() && !found && Steers(geo, stepSize)
      modifies startTree, goalTree, this`history, this`found, this`startIdx, this`goalIdx
      ensures Valid() && connected == found
      ensures Iterated(geo, stepSize, RandomSample(d, goalSampleRate, goal), old(Current()), Current(), connected)
    {
      var randPoint := RandomSample(d, goalSampleRate, goal);
      var newA, newB;
      connected, newA, newB := ExtendAndConnect(randPoint);
      if connected {
        found, startIdx, goalIdx := true, newA, newB;
      }
    }

    /**
     * Steps 2 and 3 of one pass of `plan`'s loop: extend the current start
     * tree towards `randPoint` and, when that adds a vertex, connect the
     * other tree to it. Reports whether the trees met, and the two meeting
     * vertices, the last of each tree.
     */
    method ExtendAndConnect(randPoint: Vec) returns (connected: bool, newA: Option<nat>, newB: Option<nat>)
      requires Steers(geo, stepSize) && startTree != goalTree && startTree.Valid(geo) && goalTree.Valid(geo)
      modifies startTree, goalTree, this`history
      ensures startTree.Valid(geo) && goalTree.Valid(geo)
      ensures |history| - |old(history)| == (|startTree.vertices| - |old(startTree.vertices)|) +
                                             (|goalTree.vertices| - |old(goalTree.vertices)|)
      ensures Iterated(geo, stepSize, randPoint, old(Current()), Current(), connected)
      ensures old(startTree.vertices) <= startTree.vertices && old(goalTree.vertices) <= goalTree.vertices
      ensures connected ==> newA == Some(|startTree.vertices| - 1) && newB == Some(|goalTree.vertices| - 1) &&
                            geo.dist(goalTree.vertices[|goalTree.vertices| - 1], startTree.vertices[|startTree.vertices| - 1]) < stepSize
    {
      var statusA;
      statusA, newA := ExtendTowards(startTree, randPoint);
      connected, newB := false, None;
      if statusA != Trapped && newA.Some? {
        var newAPoint := startTree.vertices[newA.value];
        var statusB;
        statusB, newB := Connect(goalTree, newAPoint);
        connected := statusB == Reached;
      }
    }

    /**
     * `extract_path_from_trees`: the walk from the connection vertex to the
     * root of the current start tree, reversed, then the walk from the
     * other connection vertex to the root of the current goal tree.
     */
    method ExtractPathFromTrees() returns (result: seq<Vec>)
      requires Valid() && found
      ensures result == JoinedPath(startTree.vertices, startTree.parents, startIdx.value,
                                   goalTree.vertices, goalTree.parents, goalIdx.value)
    {
      var startPath := WalkToRoot(startTree.vertices, startTree.parents, startIdx.value);
      var goalPath := WalkToRoot(goalTree.vertices, goalTree.parents, goalIdx.value);
      result := Reverse(startPath) + goalPath;
    }

    /**
     * The vertex and edge lists `plan` returns: the two trees' vertices
     * concatenated and their edges merged, with the connecting edge last
     * when the trees met.
     */
    method MergeTrees() returns (allVertices: seq<Vec>, allEdges: seq<Edge>)
      requires Valid()
      ensures allVertices == startTree.vertices + goalTree.vertices
      ensures allEdges == MergedEdges(startTree.parents, goalTree.parents, |startTree.vertices|,
                                      if found then Some((startIdx.value, goalIdx.value)) else None)
      ensures |allEdges| == |allVertices| - 2 + (if found then 1 else 0)
    {
      var offset := |startTree.vertices|;
      allVertices := startTree.vertices + goalTree.vertices;
      var startEdges := CollectEdges(startTree.parents, 0);
      var goalEdges := CollectEdges(goalTree.parents, offset);
      allEdges := startEdges + goalEdges;
      if found {
        allEdges := allEdges + [Edge(startIdx.value, goalIdx.value + offset)];
      }
      MergedEdgesInRange(startTree.vertices, startTree.parents, goalTree.vertices, goalTree.parents,
                         if found then Some((startIdx.value, goalIdx.value)) else None);
    }

    /**
     * The loop of `plan`: at most `maxIter` iterations, iteration `i` using
     * draw `draws(i)`, stopping at the first that connects the trees and
     * swapping them after every other one.
     */
    method Search(draws: nat -> Draw) returns (ghost drawn: seq<Draw>, ghost rounds: seq<Trees>)
      requires Valid() && Steers(geo, stepSize) && !found && !swapped && iterations == 0
      modifies startTree, goalTree, this`history, this`found, this`startIdx, this`goalIdx
      modifies this`iterations, this`startTree, this`goalTree, this`swapped
      ensures Valid()
      ensures iterations <= (if maxIter > 0 then maxIter else 0)
      ensures !found ==> iterations == (if maxIter > 0 then maxIter else 0)
      ensures swapped == (if found then !Odd(iterations) else Odd(iterations))
      ensures |drawn| == iterations && DrawnFrom(drawn, draws)
      ensures Rounds(drawn, rounds, found) && rounds[0] == old(Current()) && rounds[|drawn|] == Current()
    {
      ghost var first, second := startTree, goalTree;
      drawn, rounds := [], [Current()];
      var i := 0;
      while i < maxIter
        invariant Valid() && !found
        invariant (startTree == first && goalTree == second) || (startTree == second && goalTree == first)
        invariant 0 <= i && iterations == i && (i <= maxIter || i == 0)
        invariant swapped == Odd(i)
        invariant |drawn| == i && DrawnFrom(drawn, draws)
        invariant Rounds(drawn, rounds, false) && rounds[0] == old(Current()) && rounds[i] == Current()
      {
        DrawnFromNext(drawn, draws);
        var connected;
        connected, drawn, rounds := Round(i, draws(i), drawn, rounds);
        if connected {
          break;
        }
        i := i + 1;
      }
    }

    /**
     * One pass of `plan`'s loop, the `i`-th, with draw `d`: count it, run
     * it, and swap the trees unless it connected them. The rounds so far
     * gain this one.
     */
    method Round(i: nat, d: Draw, ghost drawn: seq<Draw>, ghost rounds: seq<Trees>)
      returns (connected: bool, ghost drawn': seq<Draw>, ghost rounds': seq<Trees>)
      requires Valid() && Steers(geo, stepSize) && !found && swapped == Odd(i)
      requires |drawn| == i && Rounds(drawn, rounds, false) && rounds[i] == Current()
      modifies startTree, goalTree, this`history, this`found, this`startIdx, this`goalIdx
      modifies this`iterations, this`startTree, this`goalTree, this`swapped
      ensures Valid() && connected == found && iterations == i + 1
      ensures connected ==> startTree == old(startTree) && goalTree == old(goalTree) && swapped == Odd(i)
      ensures !connected ==> startTree == old(goalTree) && goalTree == old(startTree) && swapped == Odd(i + 1)
      ensures drawn' == drawn + [d] && Rounds(drawn', rounds', connected)
      ensures rounds'[..i + 1] == rounds && rounds'[i + 1] == Current()
    {
      iterations := i + 1;
      connected := Iteration(d);
      drawn' := drawn + [d];
      if connected {
        RoundsStep(drawn, rounds, d, Current(), true);
        rounds' := rounds + [Current()];
      } else {
        ghost var after := Current();
        SwapTrees();
        assert Current().Swap() == after;
        RoundsStep(drawn, rounds, d, Current(), false);
        rounds' := rounds + [Current()];
      }
      assert rounds'[..i + 1] == rounds;
    }

    /**
     * `plan`: iteration `i` samples with draw `draws(i)`; the trees swap
     * after every iteration that does not connect them, so a connection
     * found on an even-numbered iteration leaves the goal's tree first and
     * the path running from the goal to the start.
     */
    method Plan(draws: nat -> Draw)
      returns (allVertices: seq<Vec>, allEdges: seq<Edge>, ghost drawn: seq<Draw>, ghost rounds: seq<Trees>)
      requires Steers(geo, stepSize)
      modifies this
      ensures Valid()
      ensures iterations <= (if maxIter > 0 then maxIter else 0)
      ensures success == found
      ensures !success ==> iterations == (if maxIter > 0 then maxIter else 0) && path == [] && pathLength == 0.0
      ensures swapped == (if success then !Odd(iterations) else Odd(iterations))
      ensures allVertices == startTree.vertices + goalTree.vertices
      ensures allEdges == MergedEdges(startTree.parents, goalTree.parents, |startTree.vertices|,
                                      if found then Some((startIdx.value, goalIdx.value)) else None)
      ensures success ==> path == JoinedPath(startTree.vertices, startTree.parents, startIdx.value,
                                             goalTree.vertices, goalTree.parents, goalIdx.value)
      ensures success ==> pathLength == PathLength(path, geo.dist)
      ensures success ==> |path| >= 2 && path[0] == (if Odd(iterations) then start else goal) &&
                          path[|path| - 1] == (if Odd(iterations) then goal else start)
      ensures |drawn| == iterations && DrawnFrom(drawn, draws)
      ensures Rounds(drawn, rounds, success) && rounds[0] == Trees([start], [None], [goal], [None])
      ensures rounds[iterations] == Current()
    {
      Reset();
      drawn, rounds := Search(draws);
      allVertices, allEdges := MergeTrees();
      RecordPath();
    }

    /** The end of `plan`: after a connection, the joined path, its length and success. */
    method RecordPath()
      requires Valid() && path == [] && pathLength == 0.0 && !success
      modifies this`path, this`pathLength, this`success
      ensures Valid() && success == found
      ensures !success ==> path == [] && pathLength == 0.0
      ensures success ==> path == JoinedPath(startTree.vertices, startTree.parents, startIdx.value,
                                             goalTree.vertices, goalTree.parents, goalIdx.value)
      ensures success ==> pathLength == PathLength(path, geo.dist)
      ensures success ==> |path| >= 2 && path[0] == startTree.vertices[0] && path[|path| - 1] == goalTree.vertices[0]
    {
      if found {
        var joined := ExtractPathFromTrees();
        var length := CalculatePathLength(joined, geo.dist);
        JoinedPathEnds(startTree.vertices, startTree.parents, startIdx.value,
                       goalTree.vertices, goalTree.parents, goalIdx.value);
        path, pathLength, success := joined, length, true;
      }
    }

    /**
     * `get_details` as written: the base planner's `nodes` entry counts the
     * base vertex list, which this planner never grows, so it is always 1;
     * the tree sizes are added only after a success.
     */
    function GetDetails(): (d: Details)
      reads this, startTree, goalTree
      ensures d.success == success && d.iterations == iterations
      ensures Valid() ==> d.nodes == 1
      ensures d.startTreeSize.Some? <==> success
      ensures success ==> d.startTreeSize == Some(|startTree.vertices|) && d.goalTreeSize == Some(|goalTree.vertices|)
    {
      Details("RRT-Connect 算法", start, goal, stepSize, goalSampleRate, maxIter,
              success, pathLength, iterations, |vertices|,
              if success then Some(|startTree.vertices|) else None,
              if success then Some(|goalTree.vertices|) else None)
    }

    /**
     * `get_details` with `nodes` counting both trees' vertices: the two
     * roots plus one vertex per recorded extension, which is the length of
     * the vertex list `plan` returns.
     */
    function GetDetailsCorrected(): (d: Details)
      reads this, startTree, goalTree
      ensures d.success == success && d.iterations == iterations
      ensures Valid() ==> d.nodes == |history| + 2
      ensures d.startTreeSize.Some? <==> success
    {
      Details("RRT-Connect 算法", start, goal, stepSize, goalSampleRate, maxIter,
              success, pathLength, iterations, |startTree.vertices| + |goalTree.vertices|,
              if success then Some(|startTree.vertices|) else None,
              if success then Some(|goalTree.vertices|) else None)
    }
  }

  /** As written, `nodes` misses every vertex after the first extension: it disagrees with the merged vertex count. */
  lemma NodeCountMissesTrees(p: RrtConnect)
    requires p.Valid() && |p.history| > 0
    ensures p.GetDetails().nodes < |p.startTree.vertices + p.goalTree.vertices|
    ensures p.GetDetailsCorrected().nodes == |p.startTree.vertices + p.goalTree.vertices|
  {
  }
}
