/**
 * The bookkeeping every planner shares: the tree as a vertex list, a parent
 * table and an edge list; nearest-vertex search; steering; the goal test;
 * and path extraction by walking parent pointers.
 *
 * Geometry is abstract. `dist(a, b)` stands for `np.linalg.norm(a - b)`,
 * `advance(a, b, s)` for the point at distance `s` from `a` towards `b`, and
 * `free(a, b)` for the configuration space's segment test at planning time.
 *
 * A planner's `parents` dictionary always has exactly the keys `0 .. n-1`
 * for its `n` vertices, inserted in that order, so it is kept here as a
 * sequence indexed by vertex.
 */
module TreeCore {
  import opened Common

  /** A tree edge `(parent_idx, child_idx)`. */
  datatype Edge = Edge(parent: nat, child: nat)

  /** A Euclidean norm is never negative. */
  type Length = r: real | r >= 0.0

  datatype Geometry = Geometry(
    dist: (Vec, Vec) -> Length,
    advance: (Vec, Vec, real) -> Vec,
    free: (Vec, Vec) -> bool)

  /**
   * The facts about the Euclidean norm that steering relies on: the norm is
   * symmetric and zero on equal points, and a step of length `step` towards
   * a point at least `step` away lands exactly `step` from the start and
   * `step` closer to the target.
   */
  ghost predicate Steers(g: Geometry, step: real)
  {
    step > 0.0 &&
    (forall a :: g.dist(a, a) == 0.0) &&
    (forall a, b :: g.dist(a, b) == g.dist(b, a)) &&
    (forall a, b {:trigger g.advance(a, b, step)} :: g.dist(a, b) >= step ==> g.dist(a, g.advance(a, b, step)) == step) &&
    (forall a, b {:trigger g.advance(a, b, step)} :: g.dist(a, b) >= step ==> g.dist(g.advance(a, b, step), b) == g.dist(a, b) - step)
  }

  /** The parts of a basic planner's tree that one pass of `plan` may change. */
  datatype TreeState = TreeState(vertices: seq<Vec>, edges: seq<Edge>, parents: seq<Option<nat>>)

  /** One random draw: `np.random.random()` and the configuration space's uniform `sample()`. */
  datatype Draw = Draw(u: real, point: Vec)

  /** Pass `j` of a planning loop used draw `draws(j)`, for every pass so far. */
  ghost predicate DrawnFrom<T>(drawn: seq<T>, draws: nat -> T)
  {
    forall j :: 0 <= j < |drawn| ==> drawn[j] == draws(j)
  }

  /** The next pass uses the next draw. */
  lemma DrawnFromNext<T>(drawn: seq<T>, draws: nat -> T)
    requires DrawnFrom(drawn, draws)
    ensures DrawnFrom(drawn + [draws(|drawn|)], draws)
  {
    var drawn' := drawn + [draws(|drawn|)];
    forall j | 0 <= j < |drawn'|
      ensures drawn'[j] == draws(j)
    {
      if j < |drawn| {
        assert drawn'[j] == drawn[j];
      }
    }
  }

  /** `random_sample`: the goal with probability `goal_sample_rate`, otherwise a uniform sample. */
  function RandomSample(d: Draw, rate: real, goal: Vec): Vec
  {
    if d.u < rate then goal else d.point
  }

  /** `steer`: the target itself when it is closer than one step, otherwise one step towards it. */
  function Steer(g: Geometry, from: Vec, to: Vec, step: real): Vec
  {
    if g.dist(to, from) < step then to else g.advance(from, to, step)
  }

  /** `is_goal_reached`: closer to the goal than half a step. */
  predicate GoalReached(g: Geometry, p: Vec, goal: Vec, step: real)
  {
    g.dist(p, goal) < step / 2.0
  }

  /**
   * Steering moves `min(step, d)` away from the start, `d` being the
   * distance to the target, and leaves `max(0, d - step)` still to go: a
   * target within one step is reached, and a farther one comes exactly one
   * step closer.
   */
  lemma SteerDistances(g: Geometry, from: Vec, to: Vec, step: real)
    requires Steers(g, step)
    ensures var s, d := Steer(g, from, to, step), g.dist(from, to);
            g.dist(from, s) == (if d < step then d else step) &&
            g.dist(s, to) == (if d < step then 0.0 else d - step) &&
            (d < step ==> s == to)
  {
    var s, d := Steer(g, from, to, step), g.dist(from, to);
    assert g.dist(to, from) == d;
  }

  /**
   * `np.argmin` over the distances from every vertex to `q`: an index of
   * minimum distance, the first one when several tie.
   */
  function NearestIndex(vs: seq<Vec>, q: Vec, dist: (Vec, Vec) -> Length): (k: nat)
    requires |vs| > 0
    ensures k < |vs|
    decreases |vs|
  {
    if |vs| == 1 then 0
    else
      var k := NearestIndex(vs[..|vs| - 1], q, dist);
      if dist(vs[|vs| - 1], q) < dist(vs[k], q) then |vs| - 1 else k
  }

  /** The index `NearestIndex` picks is no further from `q` than any other, and every earlier index is strictly further. */
  lemma {:induction false} NearestIndexIsNearest(vs: seq<Vec>, q: Vec, dist: (Vec, Vec) -> Length)
    requires |vs| > 0
    ensures var k := NearestIndex(vs, q, dist);
            (forall j :: 0 <= j < |vs| ==> dist(vs[k], q) <= dist(vs[j], q)) &&
            (forall j :: 0 <= j < k ==> dist(vs[j], q) > dist(vs[k], q))
    decreases |vs|
  {
    if |vs| > 1 {
      var init := vs[..|vs| - 1];
      NearestIndexIsNearest(init, q, dist);
      assert forall j :: 0 <= j < |init| ==> init[j] == vs[j];
    }
  }

  /** `parents.get(i, None)`. */
  function Parent(parents: seq<Option<nat>>, i: nat): Option<nat>
  {
    if i < |parents| then parents[i] else None
  }

  /** The valid vertex indices of an `n`-vertex tree. */
  function Range(n: nat): (r: set<nat>)
    ensures forall i: nat :: i in r <==> i < n
  {
    if n == 0 then {} else Range(n - 1) + {n - 1}
  }

  /**
   * The indices `extract_path` visits from `cur`: it stops at a `None`
   * parent, at an index already visited, or at an index outside the vertex
   * list, so the walk is finite even if the parent table has a cycle.
   */
  function Chain(parents: seq<Option<nat>>, n: nat, cur: nat, visited: set<nat>): (c: seq<nat>)
    requires visited <= Range(n)
    ensures forall j :: 0 <= j < |c| ==> c[j] < n && c[j] !in visited
    ensures |c| > 0 ==> c[0] == cur
    decreases Range(n) - visited
  {
    if cur in visited || cur >= n then []
    else
      match Parent(parents, cur)
      case None => [cur]
      case Some(p) => [cur] + Chain(parents, n, p, visited + {cur})
  }

  /** No element of `s` occurs twice. */
  ghost predicate NoRepeats(s: seq<nat>)
  {
    forall j, l :: 0 <= j < l < |s| ==> s[j] != s[l]
  }

  /** The walk never visits an index twice. */
  lemma {:induction false} ChainDistinct(parents: seq<Option<nat>>, n: nat, cur: nat, visited: set<nat>)
    requires visited <= Range(n)
    ensures NoRepeats(Chain(parents, n, cur, visited))
    decreases Range(n) - visited
  {
    if !(cur in visited || cur >= n) && Parent(parents, cur).Some? {
      var p := Parent(parents, cur).value;
      ChainDistinct(parents, n, p, visited + {cur});
      var c := Chain(parents, n, cur, visited);
      var rest := Chain(parents, n, p, visited + {cur});
      assert c == [cur] + rest;
      forall j, l | 0 <= j < l < |c|
        ensures c[j] != c[l]
      {
        assert c[l] == rest[l - 1] && rest[l - 1] !in visited + {cur};
        if j > 0 {
          assert c[j] == rest[j - 1];
          assert rest[j - 1] != rest[l - 1];
        }
      }
    }
  }

  /** The vertices at the given indices. */
  function Points(vs: seq<Vec>, idx: seq<nat>): (r: seq<Vec>)
    requires forall j :: 0 <= j < |idx| ==> idx[j] < |vs|
    ensures |r| == |idx|
    ensures forall j :: 0 <= j < |idx| ==> r[j] == vs[idx[j]]
  {
    seq(|idx|, j requires 0 <= j < |idx| => vs[idx[j]])
  }

  /** Every listed index is below `n`. */
  predicate Below(idx: seq<nat>, n: nat)
  {
    forall j :: 0 <= j < |idx| ==> idx[j] < n
  }

  /** Listing one more index lists one more vertex. */
  lemma PointsAppend(vs: seq<Vec>, idx: seq<nat>, i: nat)
    requires Below(idx, |vs|) && i < |vs|
    ensures Below(idx + [i], |vs|) && Points(vs, idx + [i]) == Points(vs, idx) + [vs[i]]
  {
    assert forall j :: 0 <= j < |idx| ==> (idx + [i])[j] == idx[j];
  }

  /** `s[::-1]`. */
  function Reverse<T>(s: seq<T>): (r: seq<T>)
    ensures |r| == |s|
    ensures forall j :: 0 <= j < |s| ==> r[j] == s[|s| - 1 - j]
  {
    seq(|s|, j requires 0 <= j < |s| => s[|s| - 1 - j])
  }

  /** The path `extract_path(goal_idx)` returns: the visited chain's vertices, root first. */
  function PathTo(vertices: seq<Vec>, parents: seq<Option<nat>>, goalIdx: nat): seq<Vec>
  {
    Reverse(Points(vertices, Chain(parents, |vertices|, goalIdx, {})))
  }

  /** The rest of the walk from an optional current index. */
  function Walk(parents: seq<Option<nat>>, n: nat, current: Option<nat>, visited: set<nat>): seq<nat>
    requires visited <= Range(n)
  {
    match current
    case None => []
    case Some(c) => Chain(parents, n, c, visited)
  }

  /** Visiting `c` moves it from the rest of the walk to the part already walked. */
  lemma WalkAdvance(parents: seq<Option<nat>>, n: nat, c: nat, visited: set<nat>, walked: seq<nat>, full: seq<nat>)
    requires visited <= Range(n) && c !in visited && c < n
    requires walked + Walk(parents, n, Some(c), visited) == full
    ensures (walked + [c]) + Walk(parents, n, Parent(parents, c), visited + {c}) == full
  {
    var rest := Walk(parents, n, Parent(parents, c), visited + {c});
    assert Walk(parents, n, Some(c), visited) == [c] + rest;
    assert (walked + [c]) + rest == walked + ([c] + rest);
  }

  /**
   * `extract_path`: walks parent pointers from `goalIdx`, guarded by a
   * visited set and a range check, and returns the walk reversed.
   */
  method ExtractPath(vertices: seq<Vec>, parents: seq<Option<nat>>, goalIdx: nat) returns (path: seq<Vec>)
    ensures path == PathTo(vertices, parents, goalIdx)
  {
    var n := |vertices|;
    var walk: seq<Vec> := [];
    var current: Option<nat> := Some(goalIdx);
    var visited: set<nat> := {};
    ghost var walked: seq<nat> := [];
    while current.Some?
      invariant visited <= Range(n)
      invariant Below(walked, n)
      invariant walk == Points(vertices, walked)
      invariant walked + Walk(parents, n, current, visited) == Chain(parents, n, goalIdx, {})
      decreases Range(n) - visited, current.Some?
    {
      var c := current.value;
      if c in visited {
        assert walked == Chain(parents, n, goalIdx, {});
        break;
      }
      ghost var before := visited;
      visited := visited + {c};
      if c >= n {
        assert walked == Chain(parents, n, goalIdx, {});
        break;
      }
      WalkAdvance(parents, n, c, before, walked, Chain(parents, n, goalIdx, {}));
      PointsAppend(vertices, walked, c);
      walk := walk + [vertices[c]];
      walked := walked + [c];
      current := Parent(parents, c);
    }
    assert walked == Chain(parents, n, goalIdx, {});
    path := Reverse(walk);
  }

  /**
   * The shape every tree has while vertices are only ever added: the root
   * has no parent and every other vertex's parent has a smaller index.
   */
  predicate TreeShaped(parents: seq<Option<nat>>, n: nat)
  {
    |parents| == n && n > 0 && parents[0].None? &&
    forall i :: 0 < i < n ==> parents[i].Some? && parents[i].value < i
  }

  /** In a tree, the walk from `k` descends parent by parent all the way to the root. */
  lemma {:induction false} ChainInTree(parents: seq<Option<nat>>, n: nat, k: nat, visited: set<nat>)
    requires TreeShaped(parents, n) && k < n
    requires visited <= Range(n) && forall v :: v in visited ==> v > k
    ensures var c := Chain(parents, n, k, visited);
            |c| > 0 && c[0] == k && c[|c| - 1] == 0 &&
            forall j :: 0 <= j < |c| - 1 ==> parents[c[j]] == Some(c[j + 1])
    decreases k
  {
    if k != 0 {
      var p := parents[k].value;
      ChainInTree(parents, n, p, visited + {k});
    }
  }

  /**
   * The unguarded walk to the root that a tree makes possible: `k`, its
   * parent, its grandparent, and so on up to the root.
   */
  function Ancestors(parents: seq<Option<nat>>, k: nat): (c: seq<nat>)
    requires TreeShaped(parents, |parents|) && k < |parents|
    ensures |c| > 0 && c[0] == k && c[|c| - 1] == 0
    ensures forall j :: 0 <= j < |c| ==> c[j] <= k
    ensures forall j :: 0 <= j < |c| - 1 ==> parents[c[j]] == Some(c[j + 1])
    decreases k
  {
    if k == 0 then [0] else [k] + Ancestors(parents, parents[k].value)
  }

  /** In a tree, the guarded walk of `extract_path` is exactly the walk to the root. */
  lemma {:induction false} ChainIsAncestors(parents: seq<Option<nat>>, k: nat, visited: set<nat>)
    requires TreeShaped(parents, |parents|) && k < |parents|
    requires visited <= Range(|parents|) && forall v :: v in visited ==> v > k
    ensures Chain(parents, |parents|, k, visited) == Ancestors(parents, k)
    decreases k
  {
    if k != 0 {
      ChainIsAncestors(parents, parents[k].value, visited + {k});
    }
  }

  /** In a tree, `extract_path(k)` starts at the root's vertex and ends at vertex `k`. */
  lemma PathEndsInTree(vertices: seq<Vec>, parents: seq<Option<nat>>, k: nat)
    requires TreeShaped(parents, |vertices|) && k < |vertices|
    ensures |PathTo(vertices, parents, k)| > 0
    ensures PathTo(vertices, parents, k)[0] == vertices[0]
    ensures PathTo(vertices, parents, k)[|PathTo(vertices, parents, k)| - 1] == vertices[k]
  {
    ChainInTree(parents, |vertices|, k, {});
  }

  /**
   * In a tree, the indices behind `extract_path(k)` run from the root to
   * `k`, each one the parent of the next.
   */
  lemma PathLinksInTree(vertices: seq<Vec>, parents: seq<Option<nat>>, k: nat)
    requires TreeShaped(parents, |vertices|) && k < |vertices|
    ensures var r := Reverse(Chain(parents, |vertices|, k, {}));
            |r| > 0 && r[0] == 0 && r[|r| - 1] == k &&
            (forall j :: 0 <= j < |r| ==> PathTo(vertices, parents, k)[j] == vertices[r[j]]) &&
            (forall j :: 0 <= j < |r| - 1 ==> parents[r[j + 1]] == Some(r[j]))
  {
    ChainInTree(parents, |vertices|, k, {});
  }

  /** `calculate_path_length`: the sum of the distances between consecutive points. */
  function PathLength(path: seq<Vec>, dist: (Vec, Vec) -> Length): (r: real)
    ensures r >= 0.0
    decreases |path|
  {
    if |path| < 2 then 0.0
    else PathLength(path[..|path| - 1], dist) + dist(path[|path| - 1], path[|path| - 2])
  }

  /** The loop of `calculate_path_length`. */
  method CalculatePathLength(path: seq<Vec>, dist: (Vec, Vec) -> Length) returns (length: real)
    ensures length == PathLength(path, dist)
  {
    length := 0.0;
    var i := 0;
    while i + 1 < |path|
      invariant |path| == 0 ==> i == 0 && length == 0.0
      invariant |path| > 0 ==> i < |path| && length == PathLength(path[..i + 1], dist)
    {
      assert path[..i + 2][..i + 1] == path[..i + 1];
      length := length + dist(path[i + 1], path[i]);
      i := i + 1;
    }
    if |path| > 0 {
      assert path[..i + 1] == path;
    }
  }

  /** Joining two paths adds their lengths and the length of the joint. */
  lemma {:induction false} PathLengthAppend(a: seq<Vec>, b: seq<Vec>, dist: (Vec, Vec) -> Length)
    requires |a| > 0 && |b| > 0
    ensures PathLength(a + b, dist) == PathLength(a, dist) + dist(b[0], a[|a| - 1]) + PathLength(b, dist)
    decreases |b|
  {
    if |b| == 1 {
      assert (a + b)[..|a + b| - 1] == a;
    } else {
      var b' := b[..|b| - 1];
      assert (a + b)[..|a + b| - 1] == a + b';
      PathLengthAppend(a, b', dist);
    }
  }

  /**
   * The edges `(parent + offset, child + offset)` for each entry of a parent
   * table that has a parent, in key order.
   */
  function TreeEdges(parents: seq<Option<nat>>, offset: nat): seq<Edge>
    decreases |parents|
  {
    if |parents| == 0 then []
    else
      var last := |parents| - 1;
      TreeEdges(parents[..last], offset) +
      (match parents[last]
       case None => []
       case Some(p) => [Edge(p + offset, last + offset)])
  }

  /** A tree of `n` vertices has `n - 1` edges, one into each vertex after the root. */
  lemma {:induction false} TreeEdgesOfTree(parents: seq<Option<nat>>, offset: nat)
    requires TreeShaped(parents, |parents|)
    ensures |TreeEdges(parents, offset)| == |parents| - 1
    ensures forall k :: 0 <= k < |parents| - 1 ==>
              TreeEdges(parents, offset)[k] == Edge(parents[k + 1].value + offset, k + 1 + offset)
    decreases |parents|
  {
    if |parents| > 1 {
      var last := |parents| - 1;
      TreeEdgesOfTree(parents[..last], offset);
    }
  }

  /**
   * The edge list agrees with the parent table: every edge runs from a
   * vertex's recorded parent to it, no vertex is the child of two edges, and
   * every vertex but the root is the child of one.
   */
  predicate EdgesMatchParents(edges: seq<Edge>, parents: seq<Option<nat>>)
  {
    (forall k :: 0 <= k < |edges| ==>
       0 < edges[k].child < |parents| && parents[edges[k].child] == Some(edges[k].parent)) &&
    ChildrenDistinct(edges) &&
    (forall i :: 0 < i < |parents| ==> HasEdgeInto(edges, i))
  }

  /** No vertex is the child of two edges. */
  predicate ChildrenDistinct(edges: seq<Edge>)
  {
    forall k, l :: 0 <= k < l < |edges| ==> edges[k].child != edges[l].child
  }

  predicate HasEdgeInto(edges: seq<Edge>, i: nat)
  {
    exists k :: 0 <= k < |edges| && edges[k].child == i
  }

  /** `[(p, c) for (p, c) in edges if c != child]`. */
  function DropChild(edges: seq<Edge>, child: nat): (r: seq<Edge>)
    ensures forall e :: e in r <==> e in edges && e.child != child
    ensures |r| <= |edges|
    decreases |edges|
  {
    if |edges| == 0 then []
    else if edges[0].child == child then DropChild(edges[1..], child)
    else [edges[0]] + DropChild(edges[1..], child)
  }

  /**
   * The comprehension filters edge by edge: dropping from a concatenation drops
   * from each part, so the kept edges stay in their original order.
   */
  lemma {:induction false} DropChildAppend(a: seq<Edge>, b: seq<Edge>, child: nat)
    ensures DropChild(a + b, child) == DropChild(a, child) + DropChild(b, child)
    decreases |a|
  {
    if |a| == 0 {
      assert a + b == b;
    } else {
      assert (a + b)[1..] == a[1..] + b;
      DropChildAppend(a[1..], b, child);
    }
  }

  /** Appending the edge of a freshly added vertex keeps the edge list in step with the parent table. */
  lemma InsertKeepsEdges(edges: seq<Edge>, parents: seq<Option<nat>>, p: nat)
    requires EdgesMatchParents(edges, parents) && |parents| > 0
    ensures EdgesMatchParents(edges + [Edge(p, |parents|)], parents + [Some(p)])
  {
    var edges' := edges + [Edge(p, |parents|)];
    var parents' := parents + [Some(p)];
    forall i | 0 < i < |parents'|
      ensures HasEdgeInto(edges', i)
    {
      if i < |parents| {
        assert HasEdgeInto(edges, i);
        var k :| 0 <= k < |edges| && edges[k].child == i;
        assert edges'[k] == edges[k];
      } else {
        assert edges'[|edges|].child == i;
      }
    }
  }

  /** Filtering keeps children distinct, and leaves no edge into the dropped child. */
  lemma {:induction false} DropChildUnique(edges: seq<Edge>, child: nat)
    requires ChildrenDistinct(edges)
    ensures ChildrenDistinct(DropChild(edges, child))
    ensures forall k :: 0 <= k < |DropChild(edges, child)| ==> DropChild(edges, child)[k].child != child
    decreases |edges|
  {
    if |edges| > 0 {
      var tail := edges[1..];
      DropChildUnique(tail, child);
      var rest := DropChild(tail, child);
      forall k | 0 <= k < |rest|
        ensures rest[k].child != edges[0].child
      {
        assert rest[k] in tail;
        var m :| 0 <= m < |tail| && tail[m] == rest[k];
        assert edges[m + 1] == rest[k];
        assert edges[0].child != edges[m + 1].child;
      }
      var r := DropChild(edges, child);
      if edges[0].child != child {
        assert r == [edges[0]] + rest;
        forall k, l | 0 <= k < l < |r|
          ensures r[k].child != r[l].child
        {
          assert r[l] == rest[l - 1];
          if k > 0 {
            assert r[k] == rest[k - 1];
            assert rest[k - 1].child != rest[l - 1].child;
          } else {
            assert r[k] == edges[0];
            assert rest[l - 1].child != edges[0].child;
          }
        }
      } else {
        assert r == rest;
      }
    }
  }

  /**
   * Rewiring `near` under `newIdx` (drop every edge into `near`, append
   * `(newIdx, near)`, record the new parent) keeps the edge list in step
   * with the parent table, and leaves exactly one edge into `near`.
   */
  lemma RewireKeepsEdges(edges: seq<Edge>, parents: seq<Option<nat>>, newIdx: nat, near: nat)
    requires EdgesMatchParents(edges, parents)
    requires 0 < near < |parents| && newIdx < |parents|
    ensures var edges' := DropChild(edges, near) + [Edge(newIdx, near)];
            EdgesMatchParents(edges', parents[near := Some(newIdx)]) &&
            (forall k :: 0 <= k < |edges'| && edges'[k].child == near ==> edges'[k] == Edge(newIdx, near))
  {
    var dropped := DropChild(edges, near);
    var edges' := dropped + [Edge(newIdx, near)];
    var parents' := parents[near := Some(newIdx)];
    DropChildUnique(edges, near);
    forall k | 0 <= k < |dropped|
      ensures 0 < dropped[k].child < |parents'| && parents'[dropped[k].child] == Some(dropped[k].parent)
    {
      assert dropped[k] in edges;
    }
    forall i | 0 < i < |parents'|
      ensures HasEdgeInto(edges', i)
    {
      if i == near {
        assert edges'[|dropped|].child == i;
      } else {
        assert HasEdgeInto(edges, i);
        var k :| 0 <= k < |edges| && edges[k].child == i;
        assert edges[k] in dropped;
        var m :| 0 <= m < |dropped| && dropped[m] == edges[k];
        assert edges'[m].child == i;
      }
    }
  }
}
