/**
 * The browser-side scene object: start and goal markers, the obstacle list, the planner's
 * tree and path, the click mode, and the frame-by-frame animation of a planning result.
 * Painting is not modelled except for the one thing it can do to the animation: a repaint
 * that reads a missing node raises a TypeError, which stops the frame loop.
 */
module SceneState {
  import opened Common

  datatype Point = Point(x: real, y: real)

  /** An argument as `typeof` sees it: a number, or anything else. */
  datatype JsValue = Number(value: real) | NonNumber

  datatype Obstacle =
    | Rectangle(x: real, y: real, width: real, height: real)
    | Circle(centerX: real, centerY: real, radius: real)

  /** A tree edge from the server: indices into the vertex list, not checked against it. */
  datatype IndexEdge = IndexEdge(from: int, to: int)

  /** The click mode: `none`, `setStart` or `setGoal`. */
  datatype Mode = NoMode | SetStartMode | SetGoalMode

  /** An animated edge holds the looked-up endpoints; a lookup past the vertex list is `undefined`. */
  datatype Segment = Segment(from: Option<Point>, to: Option<Point>)

  /** One entry of the animation queue. */
  datatype AnimEvent =
    | EdgeEvent(segment: Segment, nodeIndex: int)
    | PathEvent(from: Point, to: Point)

  /** The three "rendered" lists the animation grows. */
  datatype Canvas = Canvas(nodes: seq<Option<Point>>, edges: seq<Segment>, path: seq<Point>)

  /** The lists after replaying events, and whether one of them raised a TypeError. */
  datatype Replay = Replay(canvas: Canvas, threw: bool)

  /** How one animation frame ended. */
  datatype StepOutcome = Finished | Continued | Threw

  /** A planning result as `updateResult` reads it; each list may be absent. */
  datatype PlanResult = PlanResult(
    vertices: Option<seq<Point>>, edges: Option<seq<IndexEdge>>, path: Option<seq<Point>>)

  // ---------------------------------------------------------------------------
  // Pure helpers

  /** `Math.max(lo, Math.min(hi, v))` */
  function Clamp(lo: real, hi: real, v: real): (r: real)
    ensures lo <= hi ==> lo <= r <= hi
    ensures lo <= v <= hi ==> r == v
    ensures v < lo || hi < lo ==> r == lo
    ensures lo <= hi < v ==> r == hi
  {
    var m := if hi < v then hi else v;
    if m < lo then lo else m
  }

  /** `array[i]` in JavaScript: `undefined` outside the array. */
  function Lookup(nodes: seq<Point>, i: int): (r: Option<Point>)
    ensures r.Some? <==> 0 <= i < |nodes|
    ensures r.Some? ==> r.value == nodes[i]
  {
    if 0 <= i < |nodes| then Some(nodes[i]) else None
  }

  function EdgeEvents(nodes: seq<Point>, edges: seq<IndexEdge>): seq<AnimEvent>
  {
    seq(|edges|, k requires 0 <= k < |edges| =>
      EdgeEvent(Segment(Lookup(nodes, edges[k].from), Lookup(nodes, edges[k].to)), edges[k].to))
  }

  function PathEvents(path: seq<Point>): seq<AnimEvent>
  {
    if |path| == 0 then [] else seq(|path| - 1, i requires 0 <= i < |path| - 1 => PathEvent(path[i], path[i + 1]))
  }

  /** The queue `startAnimation` builds: every edge in order, then each consecutive path segment. */
  function AnimationQueue(nodes: seq<Point>, edges: seq<IndexEdge>, path: seq<Point>): (q: seq<AnimEvent>)
    ensures |q| == |edges| + (if |path| > 0 then |path| - 1 else 0)
    ensures forall k :: 0 <= k < |edges| ==> q[k].EdgeEvent? && q[k].nodeIndex == edges[k].to
    ensures forall k :: |edges| <= k < |q| ==> q[k] == PathEvent(path[k - |edges|], path[k - |edges| + 1])
  {
    EdgeEvents(nodes, edges) + PathEvents(path)
  }

  /** The rendered lists `startAnimation` starts from: the first vertex alone, even when absent. */
  function Seed(nodes: seq<Point>): Canvas
  {
    Canvas([Lookup(nodes, 0)], [], [])
  }

  /** The three results of `renderedNodes.some(node => node.x === to.x && node.y === to.y)`. */
  datatype Probe = Found | Missing | Throws

  /** `some` stops at the first equal node; reading `.x` of an `undefined` node or target throws. */
  function SomeEqual(nodes: seq<Option<Point>>, to: Option<Point>): (r: Probe)
    ensures r == Found ==> to.Some? && to in nodes
    ensures r == Missing ==> forall i :: 0 <= i < |nodes| ==> nodes[i].Some? && nodes[i] != to
    ensures r == Missing && nodes != [] ==> to.Some?
    ensures r == Throws ==> nodes != [] && (to.None? || None in nodes)
    ensures to.Some? && (forall i :: 0 <= i < |nodes| ==> nodes[i].Some?) ==> r != Throws
    ensures to.Some? && to in nodes && (forall i :: 0 <= i < |nodes| ==> nodes[i].Some?) ==> r == Found
  {
    if nodes == [] then Missing
    else if nodes[0].None? || to.None? then Throws
    else if nodes[0] == to then Found
    else SomeEqual(nodes[1..], to)
  }

  /** What one queued event does to the rendered lists (the body of the `for` in `animateStep`). */
  function ApplyEvent(c: Canvas, e: AnimEvent): Replay
  {
    match e
    case EdgeEvent(seg, _) =>
      var edges := c.edges + [seg];
      (match SomeEqual(c.nodes, seg.to)
       case Throws => Replay(Canvas(c.nodes, edges, c.path), true)
       case Found => Replay(Canvas(c.nodes, edges, c.path), false)
       case Missing => Replay(Canvas(c.nodes + [seg.to], edges, c.path), false))
    case PathEvent(from, to) =>
      var path := if c.path == [] then [from] else [];
      Replay(Canvas(c.nodes, c.edges, c.path + path + [to]), false)
  }

  /** Events applied in order; a TypeError abandons the rest. */
  function ApplyAll(c: Canvas, es: seq<AnimEvent>): Replay
    decreases |es|
  {
    if es == [] then Replay(c, false)
    else
      var r := ApplyEvent(c, es[0]);
      if r.threw then r else ApplyAll(r.canvas, es[1..])
  }

  /** A repaint during an animation reads `.x` of every rendered node and of both ends of every
      rendered edge, so it throws unless all of them are present. */
  predicate Renderable(c: Canvas)
  {
    (forall i :: 0 <= i < |c.nodes| ==> c.nodes[i].Some?)
    && forall i :: 0 <= i < |c.edges| ==> c.edges[i].from.Some? && c.edges[i].to.Some?
  }

  predicate Distinct<T(==)>(s: seq<T>)
  {
    forall i, j :: 0 <= i < j < |s| ==> s[i] != s[j]
  }

  /** `Math.ceil(speed)` */
  function Ceil(x: real): (c: int)
    ensures c as real - 1.0 < x <= c as real
  {
    -((-x).Floor)
  }

  /** How many events `animationQueue.splice(0, Math.ceil(speed))` takes from a queue of `len`. */
  function TakeCount(speed: real, len: nat): (n: nat)
    ensures n <= len
    ensures speed > 0.0 && len > 0 ==> n >= 1
    ensures speed <= 0.0 ==> n == 0
    ensures n == len || n as real >= speed
    ensures n > 0 ==> n as real < speed + 1.0
  {
    var c := Ceil(speed);
    assert (-speed).Floor as real <= -speed < (-speed).Floor as real + 1.0;
    if c <= 0 then 0 else if c < len then c else len
  }

  /** The default start of `reset`: 50 pixels in, or a tenth of the canvas when that is less. */
  function DefaultStart(width: real, height: real): (p: Point)
    ensures p.x <= 50.0 && p.x <= 0.1 * width && (p.x == 50.0 || p.x == 0.1 * width)
    ensures p.y <= 50.0 && p.y <= 0.1 * height && (p.y == 50.0 || p.y == 0.1 * height)
  {
    Point(if 50.0 < 0.1 * width then 50.0 else 0.1 * width, if 50.0 < 0.1 * height then 50.0 else 0.1 * height)
  }

  /** The default goal of `reset`: 50 pixels from the far edges, or nine tenths of the canvas when
      that is more. */
  function DefaultGoal(width: real, height: real): (p: Point)
    ensures p.x >= width - 50.0 && p.x >= 0.9 * width && (p.x == width - 50.0 || p.x == 0.9 * width)
    ensures p.y >= height - 50.0 && p.y >= 0.9 * height && (p.y == height - 50.0 || p.y == 0.9 * height)
  {
    Point(if width - 50.0 > 0.9 * width then width - 50.0 else 0.9 * width,
          if height - 50.0 > 0.9 * height then height - 50.0 else 0.9 * height)
  }

  // ---------------------------------------------------------------------------
  // Lemmas about the animation replay

  /** Replaying two lists of events is replaying the first, then the second unless it threw. */
  lemma {:induction false} ApplyAllAppend(c: Canvas, a: seq<AnimEvent>, b: seq<AnimEvent>)
    ensures ApplyAll(c, a + b) ==
      (var r := ApplyAll(c, a); if r.threw then r else ApplyAll(r.canvas, b))
    decreases |a|
  {
    if a != [] {
      assert (a + b)[0] == a[0];
      assert (a + b)[1..] == a[1..] + b;
      var r := ApplyEvent(c, a[0]);
      if !r.threw {
        ApplyAllAppend(r.canvas, a[1..], b);
      }
    } else {
      assert a + b == b;
    }
  }

  /** No replay ever renders the same point twice: a destination is added only when no equal
      node is present. */
  lemma {:induction false} ReplayKeepsDistinct(c: Canvas, es: seq<AnimEvent>)
    requires Distinct(c.nodes)
    ensures Distinct(ApplyAll(c, es).canvas.nodes)
    decreases |es|
  {
    if es != [] {
      var r := ApplyEvent(c, es[0]);
      if es[0].EdgeEvent? && SomeEqual(c.nodes, es[0].segment.to) == Missing {
        var to := es[0].segment.to;
        var ns := c.nodes + [to];
        forall i, j | 0 <= i < j < |ns|
          ensures ns[i] != ns[j]
        {
          if j == |c.nodes| {
            assert ns[i] == c.nodes[i];
          }
        }
      }
      if !r.threw {
        ReplayKeepsDistinct(r.canvas, es[1..]);
      }
    }
  }

  /** The segments the edge events carry, in order. */
  function Segments(nodes: seq<Point>, es: seq<IndexEdge>): seq<Segment>
  {
    seq(|es|, k requires 0 <= k < |es| => Segment(Lookup(nodes, es[k].from), Lookup(nodes, es[k].to)))
  }

  /** Lists on which an edge event cannot fail for a destination inside the vertex list. */
  predicate AllPresent(c: Canvas)
  {
    c.nodes != [] && forall i :: 0 <= i < |c.nodes| ==> c.nodes[i].Some?
  }

  /** The edge events after the first, and what the first does to lists whose nodes are all present. */
  lemma EdgeEventsHead(c: Canvas, nodes: seq<Point>, es: seq<IndexEdge>)
    requires es != [] && AllPresent(c)
    ensures var evs := EdgeEvents(nodes, es);
      var r := ApplyEvent(c, evs[0]);
      && evs[1..] == EdgeEvents(nodes, es[1..])
      && (r.threw <==> !(0 <= es[0].to < |nodes|))
      && (!r.threw ==>
            && AllPresent(r.canvas) && r.canvas.path == c.path
            && r.canvas.edges == c.edges + [Segment(Lookup(nodes, es[0].from), Lookup(nodes, es[0].to))]
            && forall p :: Some(p) in r.canvas.nodes <==> Some(p) in c.nodes || Some(p) == Lookup(nodes, es[0].to))
  {
    var evs := EdgeEvents(nodes, es);
    assert evs[1..] == EdgeEvents(nodes, es[1..]);
  }

  /** Edge events replayed onto lists whose nodes are all present throw exactly when some edge's
      destination index is outside the vertex list. */
  lemma {:induction false} EdgeReplayThrows(c: Canvas, nodes: seq<Point>, es: seq<IndexEdge>)
    requires AllPresent(c)
    ensures ApplyAll(c, EdgeEvents(nodes, es)).threw <==> exists k :: 0 <= k < |es| && !(0 <= es[k].to < |nodes|)
    decreases |es|
  {
    if es != [] {
      EdgeEventsHead(c, nodes, es);
      var r1 := ApplyEvent(c, EdgeEvents(nodes, es)[0]);
      if !r1.threw {
        EdgeReplayThrows(r1.canvas, nodes, es[1..]);
        if exists k :: 0 <= k < |es| && !(0 <= es[k].to < |nodes|) {
          var k :| 0 <= k < |es| && !(0 <= es[k].to < |nodes|);
          assert es[1..][k - 1] == es[k];
        }
        if exists k :: 0 <= k < |es[1..]| && !(0 <= es[1..][k].to < |nodes|) {
          var k :| 0 <= k < |es[1..]| && !(0 <= es[1..][k].to < |nodes|);
          assert es[k + 1] == es[1..][k];
        }
      }
    }
  }

  /** Edge events replayed without a TypeError append their segments in order, keep the path, and
      leave every node present. */
  lemma {:induction false} EdgeReplayShape(c: Canvas, nodes: seq<Point>, es: seq<IndexEdge>)
    requires AllPresent(c)
    requires !ApplyAll(c, EdgeEvents(nodes, es)).threw
    ensures var r := ApplyAll(c, EdgeEvents(nodes, es));
      AllPresent(r.canvas) && r.canvas.path == c.path && r.canvas.edges == c.edges + Segments(nodes, es)
    decreases |es|
  {
    if es == [] {
      assert Segments(nodes, es) == [];
    } else {
      EdgeEventsHead(c, nodes, es);
      var r1 := ApplyEvent(c, EdgeEvents(nodes, es)[0]);
      EdgeReplayShape(r1.canvas, nodes, es[1..]);
      assert Segments(nodes, es) == [Segment(Lookup(nodes, es[0].from), Lookup(nodes, es[0].to))] + Segments(nodes, es[1..]);
    }
  }

  /** Edge events replayed without a TypeError add exactly the destinations to the rendered nodes. */
  lemma {:induction false} EdgeReplayNodes(c: Canvas, nodes: seq<Point>, es: seq<IndexEdge>, p: Point)
    requires AllPresent(c)
    requires !ApplyAll(c, EdgeEvents(nodes, es)).threw
    ensures Some(p) in ApplyAll(c, EdgeEvents(nodes, es)).canvas.nodes <==>
      Some(p) in c.nodes || exists k :: 0 <= k < |es| && Lookup(nodes, es[k].to) == Some(p)
    decreases |es|
  {
    if es != [] {
      EdgeEventsHead(c, nodes, es);
      var r1 := ApplyEvent(c, EdgeEvents(nodes, es)[0]);
      EdgeReplayNodes(r1.canvas, nodes, es[1..], p);
      if exists k :: 0 <= k < |es| && Lookup(nodes, es[k].to) == Some(p) {
        var k :| 0 <= k < |es| && Lookup(nodes, es[k].to) == Some(p);
        if k > 0 {
          assert es[1..][k - 1] == es[k];
        }
      }
      if exists k :: 0 <= k < |es[1..]| && Lookup(nodes, es[1..][k].to) == Some(p) {
        var k :| 0 <= k < |es[1..]| && Lookup(nodes, es[1..][k].to) == Some(p);
        assert es[k + 1] == es[1..][k];
      }
    }
  }

  /** The path part of a queue, replayed onto lists already ending in the path's first point,
      appends the rest of the path and never throws. */
  lemma {:induction false} PathReplayFrom(c: Canvas, path: seq<Point>)
    requires path != [] && c.path != [] && c.path[|c.path| - 1] == path[0]
    ensures ApplyAll(c, PathEvents(path)) == Replay(Canvas(c.nodes, c.edges, c.path + path[1..]), false)
    decreases |path|
  {
    if |path| == 1 {
      assert PathEvents(path) == [];
      assert path[1..] == [];
    } else {
      var c1 := Canvas(c.nodes, c.edges, c.path + [path[1]]);
      calc {
        ApplyAll(c, PathEvents(path));
        { PathEventsSplit(c, path, c1); }
        ApplyAll(c1, PathEvents(path[1..]));
        { PathReplayFrom(c1, path[1..]); }
        Replay(Canvas(c.nodes, c.edges, c1.path + path[1..][1..]), false);
        { assert c1.path + path[1..][1..] == c.path + path[1..]; }
        Replay(Canvas(c.nodes, c.edges, c.path + path[1..]), false);
      }
    }
  }

  /** The first segment event of a path of two or more points, applied to lists whose path is
      `c1.path` without its last point, leaves `c1` and hands the rest of the path on. */
  lemma PathEventsSplit(c: Canvas, path: seq<Point>, c1: Canvas)
    requires |path| >= 2 && c1 == Canvas(c.nodes, c.edges, if c.path == [] then [path[0], path[1]] else c.path + [path[1]])
    ensures ApplyAll(c, PathEvents(path)) == ApplyAll(c1, PathEvents(path[1..]))
  {
    var evs := PathEvents(path);
    assert evs[0] == PathEvent(path[0], path[1]);
    assert evs[1..] == PathEvents(path[1..]);
    assert ApplyEvent(c, evs[0]) == Replay(c1, false);
  }

  /** The path part of a queue, replayed onto lists with no path yet, draws the whole path when it
      has at least two points and nothing otherwise. */
  lemma PathReplay(c: Canvas, path: seq<Point>)
    requires c.path == []
    ensures ApplyAll(c, PathEvents(path)) ==
      Replay(Canvas(c.nodes, c.edges, if |path| >= 2 then path else []), false)
  {
    if |path| < 2 {
      assert PathEvents(path) == [];
    } else {
      var c1 := Canvas(c.nodes, c.edges, [path[0], path[1]]);
      PathEventsSplit(c, path, c1);
      PathReplayFrom(c1, path[1..]);
      assert [path[0], path[1]] + path[1..][1..] == path;
    }
  }

  /** A result whose vertex list is non-empty and whose edges all index into it. */
  predicate WellFormedResult(nodes: seq<Point>, edges: seq<IndexEdge>)
  {
    && nodes != []
    && forall k :: 0 <= k < |edges| ==> 0 <= edges[k].from < |nodes| && 0 <= edges[k].to < |nodes|
  }

  /** The whole animation of a result replays without a TypeError and leaves paintable lists
      exactly when the result is well formed; then the rendered edges are the result's edges in
      order, the rendered path is the path when it has two or more points, and the rendered nodes
      are the first vertex and the edges' destinations, each once. */
  lemma AnimationOutcome(nodes: seq<Point>, edges: seq<IndexEdge>, path: seq<Point>)
    ensures var r := ApplyAll(Seed(nodes), AnimationQueue(nodes, edges, path));
      && (!r.threw && Renderable(r.canvas) <==> WellFormedResult(nodes, edges))
      && (WellFormedResult(nodes, edges) ==>
            && |r.canvas.edges| == |edges|
            && (forall k :: 0 <= k < |edges| ==>
                  r.canvas.edges[k] == Segment(Some(nodes[edges[k].from]), Some(nodes[edges[k].to])))
            && r.canvas.path == (if |path| >= 2 then path else [])
            && Distinct(r.canvas.nodes)
            && (forall p :: Some(p) in r.canvas.nodes <==>
                  p == nodes[0] || exists k :: 0 <= k < |edges| && nodes[edges[k].to] == p))
  {
    AnimationRenderable(nodes, edges, path);
    if WellFormedResult(nodes, edges) {
      AnimationShape(nodes, edges, path);
    }
  }

  /** The replay ends renderable, without a TypeError, exactly for a well-formed result. */
  lemma AnimationRenderable(nodes: seq<Point>, edges: seq<IndexEdge>, path: seq<Point>)
    ensures var r := ApplyAll(Seed(nodes), AnimationQueue(nodes, edges, path));
      !r.threw && Renderable(r.canvas) <==> WellFormedResult(nodes, edges)
  {
    var seed := Seed(nodes);
    var evs := EdgeEvents(nodes, edges);
    ApplyAllAppend(seed, evs, PathEvents(path));
    var r := ApplyAll(seed, AnimationQueue(nodes, edges, path));
    if nodes == [] {
      if edges != [] {
        assert ApplyEvent(seed, evs[0]).threw;
      } else {
        assert evs == [];
        PathReplay(seed, path);
        assert r.canvas.nodes[0].None?;
      }
    } else {
      EdgeReplayThrows(seed, nodes, edges);
      var re := ApplyAll(seed, evs);
      if !re.threw {
        EdgeReplayShape(seed, nodes, edges);
        PathReplay(re.canvas, path);
        assert r.canvas.edges == Segments(nodes, edges);
        assert r.canvas.nodes == re.canvas.nodes;
        if !WellFormedResult(nodes, edges) {
          var k :| 0 <= k < |edges| && !(0 <= edges[k].from < |nodes| && 0 <= edges[k].to < |nodes|);
          assert r.canvas.edges[k].from.None?;
        }
      }
    }
  }

  /** For a well-formed result the replay draws every edge in order, the path, and each node once. */
  lemma AnimationShape(nodes: seq<Point>, edges: seq<IndexEdge>, path: seq<Point>)
    requires WellFormedResult(nodes, edges)
    ensures var r := ApplyAll(Seed(nodes), AnimationQueue(nodes, edges, path));
      && |r.canvas.edges| == |edges|
      && (forall k :: 0 <= k < |edges| ==>
            r.canvas.edges[k] == Segment(Some(nodes[edges[k].from]), Some(nodes[edges[k].to])))
      && r.canvas.path == (if |path| >= 2 then path else [])
      && Distinct(r.canvas.nodes)
      && (forall p :: Some(p) in r.canvas.nodes <==>
            p == nodes[0] || exists k :: 0 <= k < |edges| && nodes[edges[k].to] == p)
  {
    var seed := Seed(nodes);
    var evs := EdgeEvents(nodes, edges);
    ApplyAllAppend(seed, evs, PathEvents(path));
    ReplayKeepsDistinct(seed, AnimationQueue(nodes, edges, path));
    var r := ApplyAll(seed, AnimationQueue(nodes, edges, path));
    EdgeReplayThrows(seed, nodes, edges);
    var re := ApplyAll(seed, evs);
    EdgeReplayShape(seed, nodes, edges);
    PathReplay(re.canvas, path);
    assert r.canvas.edges == Segments(nodes, edges);
    assert r.canvas.nodes == re.canvas.nodes;
    forall p
      ensures Some(p) in r.canvas.nodes <==>
        p == nodes[0] || exists k :: 0 <= k < |edges| && nodes[edges[k].to] == p
    {
      EdgeReplayNodes(seed, nodes, edges, p);
    }
  }

  /** The defaults `reset` picks lie on a canvas of non-negative size, the start no further right
      or down than the goal. */
  lemma ResetDefaultsOnCanvas(width: real, height: real)
    requires width >= 0.0 && height >= 0.0
    ensures var s, g := DefaultStart(width, height), DefaultGoal(width, height);
      && 0.0 <= s.x <= g.x <= width && 0.0 <= s.y <= g.y <= height
      && (width >= 500.0 ==> s.x == 50.0 && g.x == width - 50.0)
      && (height >= 500.0 ==> s.y == 50.0 && g.y == height - 50.0)
  {
  }

  /** The two loops of `startAnimation` that fill the queue. */
  method BuildQueue(nodes: seq<Point>, edges: seq<IndexEdge>, path: seq<Point>) returns (queue: seq<AnimEvent>)
    ensures queue == AnimationQueue(nodes, edges, path)
  {
    queue := [];
    var k := 0;
    while k < |edges|
      invariant 0 <= k <= |edges|
      invariant queue == EdgeEvents(nodes, edges[..k])
    {
      queue := queue + [EdgeEvent(Segment(Lookup(nodes, edges[k].from), Lookup(nodes, edges[k].to)), edges[k].to)];
      k := k + 1;
    }
    assert edges[..k] == edges;
    if |path| > 0 {
      var i := 0;
      while i < |path| - 1
        invariant 0 <= i <= |path| - 1
        invariant queue == EdgeEvents(nodes, edges) + PathEvents(path[..i + 1])
      {
        assert PathEvents(path[..i + 2]) == PathEvents(path[..i + 1]) + [PathEvent(path[i], path[i + 1])];
        queue := queue + [PathEvent(path[i], path[i + 1])];
        i := i + 1;
      }
      assert path[..i + 1] == path;
    }
  }

  // ---------------------------------------------------------------------------
  // The scene object

  class Visualizer {
    /** Canvas size (`config.width`, `config.height`). */
    const width: real
    const height: real
    const startRadius: real
    const goalRadius: real
    /** `config.animation.speed` and `config.animation.enabled`. */
    const speed: real
    const animationEnabled: bool

    var start: Point
    var goal: Point
    var obstacles: seq<Obstacle>
    var nodes: seq<Point>
    var edges: seq<IndexEdge>
    var path: seq<Point>
    var mode: Mode
    var animationInProgress: bool
    /** Whether `state.animationFrame` holds a frame handle. */
    var animationFrame: bool
    var animationQueue: seq<AnimEvent>
    var renderedNodes: seq<Option<Point>>
    var renderedEdges: seq<Segment>
    var renderedPath: seq<Point>

    /** The result the current animation was started on, the events it has already played, and
        whether a frame of it threw. */
    ghost var animNodes: seq<Point>
    ghost var animEdges: seq<IndexEdge>
    ghost var animPath: seq<Point>
    ghost var played: seq<AnimEvent>
    ghost var broken: bool

    function Rendered(): Canvas
      reads `renderedNodes, `renderedEdges, `renderedPath
    {
      Canvas(renderedNodes, renderedEdges, renderedPath)
    }

    /** The rendered nodes are pairwise different, and while an animation runs unbroken, the
        rendered lists are the replay of the events already taken from its queue. */
    ghost predicate Valid()
      reads `renderedNodes, `renderedEdges, `renderedPath, `animationInProgress, `broken,
        `animNodes, `animEdges, `animPath, `played, `animationQueue
    {
      && Distinct(renderedNodes)
      && (animationInProgress && !broken ==>
            && ApplyAll(Seed(animNodes), played) == Replay(Rendered(), false)
            && played + animationQueue == AnimationQueue(animNodes, animEdges, animPath))
    }

    /** Whether a repaint in the current state raises a TypeError. */
    predicate RenderFails()
      reads `animationInProgress, `renderedNodes, `renderedEdges, `renderedPath
    {
      animationEnabled && animationInProgress && !Renderable(Rendered())
    }

    /** A visualizer on a canvas of the given size, with the source's defaults. */
    constructor (canvasWidth: real, canvasHeight: real)
      ensures Valid()
      ensures width == canvasWidth && height == canvasHeight
      ensures startRadius == 10.0 && goalRadius == 10.0 && speed == 1.0 && animationEnabled
      ensures start == Point(50.0, 50.0) && goal == Point(750.0, 550.0)
      ensures obstacles == [] && nodes == [] && edges == [] && path == [] && mode == NoMode
      ensures !animationInProgress && !animationFrame
      ensures animationQueue == [] && Rendered() == Canvas([], [], [])
    {
      width := canvasWidth;
      height := canvasHeight;
      startRadius := 10.0;
      goalRadius := 10.0;
      speed := 1.0;
      animationEnabled := true;
      start := Point(50.0, 50.0);
      goal := Point(750.0, 550.0);
      obstacles := [];
      nodes := [];
      edges := [];
      path := [];
      mode := NoMode;
      animationInProgress := false;
      animationFrame := false;
      animationQueue := [];
      renderedNodes := [];
      renderedEdges := [];
      renderedPath := [];
      animNodes := [];
      animEdges := [];
      animPath := [];
      played := [];
      broken := false;
    }

    /** `setStart`: a non-number argument changes nothing; otherwise the start is stored clamped
        into `[r, width - r] x [r, height - r]` and the repaint that follows raises exactly when a
        repaint fails in the current state. */
    method SetStart(x: JsValue, y: JsValue) returns (raised: bool)
      requires Valid()
      modifies this
      ensures Valid()
      ensures raised <==> x.Number? && y.Number? && RenderFails()
      ensures x.Number? && y.Number? ==>
        start == Point(Clamp(startRadius, width - startRadius, x.value),
                       Clamp(startRadius, height - startRadius, y.value))
      ensures !(x.Number? && y.Number?) ==> start == old(start)
      ensures goal == old(goal) && obstacles == old(obstacles) && mode == old(mode)
      ensures nodes == old(nodes) && edges == old(edges) && path == old(path)
      ensures animationInProgress == old(animationInProgress) && animationFrame == old(animationFrame)
      ensures animationQueue == old(animationQueue) && Rendered() == old(Rendered())
      ensures unchanged(`animNodes, `animEdges, `animPath, `played, `broken)
    {
      if x.NonNumber? || y.NonNumber? {
        return false;
      }
      start := Point(Clamp(startRadius, width - startRadius, x.value),
                     Clamp(startRadius, height - startRadius, y.value));
      raised := RenderFails();
    }

    /** `setGoal`: as `setStart`, with the goal radius. */
    method SetGoal(x: JsValue, y: JsValue) returns (raised: bool)
      requires Valid()
      modifies this
      ensures Valid()
      ensures raised <==> x.Number? && y.Number? && RenderFails()
      ensures x.Number? && y.Number? ==>
        goal == Point(Clamp(goalRadius, width - goalRadius, x.value),
                      Clamp(goalRadius, height - goalRadius, y.value))
      ensures !(x.Number? && y.Number?) ==> goal == old(goal)
      ensures start == old(start) && obstacles == old(obstacles) && mode == old(mode)
      ensures nodes == old(nodes) && edges == old(edges) && path == old(path)
      ensures animationInProgress == old(animationInProgress) && animationFrame == old(animationFrame)
      ensures animationQueue == old(animationQueue) && Rendered() == old(Rendered())
      ensures unchanged(`animNodes, `animEdges, `animPath, `played, `broken)
    {
      if x.NonNumber? || y.NonNumber? {
        return false;
      }
      goal := Point(Clamp(goalRadius, width - goalRadius, x.value),
                    Clamp(goalRadius, height - goalRadius, y.value));
      raised := RenderFails();
    }

    method EnterSetStartMode()
      modifies `mode
      ensures mode == SetStartMode
    {
      mode := SetStartMode;
    }

    method EnterSetGoalMode()
      modifies `mode
      ensures mode == SetGoalMode
    {
      mode := SetGoalMode;
    }

    /** A canvas click at integer pixel `(x, y)`: in a set mode it moves that marker and returns to
        `none`, unless the marker's repaint raises, which leaves the set mode on; in `none` it
        changes nothing. */
    method Click(x: int, y: int) returns (raised: bool)
      requires Valid()
      modifies this
      ensures Valid()
      ensures old(mode) == SetStartMode ==>
        start == Point(Clamp(startRadius, width - startRadius, x as real),
                       Clamp(startRadius, height - startRadius, y as real)) && goal == old(goal)
      ensures old(mode) == SetGoalMode ==>
        goal == Point(Clamp(goalRadius, width - goalRadius, x as real),
                      Clamp(goalRadius, height - goalRadius, y as real)) && start == old(start)
      ensures old(mode) == NoMode ==> start == old(start) && goal == old(goal)
      ensures raised <==> old(mode) != NoMode && RenderFails()
      ensures mode == (if raised then old(mode) else NoMode)
      ensures obstacles == old(obstacles) && nodes == old(nodes) && edges == old(edges) && path == old(path)
      ensures animationInProgress == old(animationInProgress) && animationFrame == old(animationFrame)
      ensures animationQueue == old(animationQueue) && Rendered() == old(Rendered())
      ensures unchanged(`animNodes, `animEdges, `animPath, `played, `broken)
    {
      raised := false;
      if mode == SetStartMode {
        raised := SetStart(Number(x as real), Number(y as real));
        if !raised {
          mode := NoMode;
        }
      } else if mode == SetGoalMode {
        raised := SetGoal(Number(x as real), Number(y as real));
        if !raised {
          mode := NoMode;
        }
      }
    }

    /** `addRectangleObstacle`: appends one rectangle unless an argument is not a number or the
        width or height is not positive; the repaint after an append raises exactly when a repaint
        fails in the current state. */
    method AddRectangleObstacle(x: JsValue, y: JsValue, w: JsValue, h: JsValue) returns (raised: bool)
      modifies `obstacles
      ensures if x.Number? && y.Number? && w.Number? && h.Number? && w.value > 0.0 && h.value > 0.0
              then obstacles == old(obstacles) + [Rectangle(x.value, y.value, w.value, h.value)] &&
                   raised == RenderFails()
              else obstacles == old(obstacles) && !raised
    {
      if x.NonNumber? || y.NonNumber? || w.NonNumber? || h.NonNumber? || w.value <= 0.0 || h.value <= 0.0 {
        return false;
      }
      obstacles := obstacles + [Rectangle(x.value, y.value, w.value, h.value)];
      raised := RenderFails();
    }

    /** `addCircleObstacle`: appends one circle unless an argument is not a number or the radius is
        not positive; the repaint after an append raises as for a rectangle. */
    method AddCircleObstacle(cx: JsValue, cy: JsValue, radius: JsValue) returns (raised: bool)
      modifies `obstacles
      ensures if cx.Number? && cy.Number? && radius.Number? && radius.value > 0.0
              then obstacles == old(obstacles) + [Circle(cx.value, cy.value, radius.value)] &&
                   raised == RenderFails()
              else obstacles == old(obstacles) && !raised
    {
      if cx.NonNumber? || cy.NonNumber? || radius.NonNumber? || radius.value <= 0.0 {
        return false;
      }
      obstacles := obstacles + [Circle(cx.value, cy.value, radius.value)];
      raised := RenderFails();
    }

    /** `clearObstacles`: empties the list, then repaints, which raises exactly when a repaint fails. */
    method ClearObstacles() returns (raised: bool)
      modifies `obstacles
      ensures obstacles == [] && raised == RenderFails()
    {
      obstacles := [];
      raised := RenderFails();
    }

    /** `stopAnimation`: drops the frame handle, clears the flag, the queue and every rendered list. */
    method StopAnimation()
      modifies `animationFrame, `animationInProgress, `animationQueue, `renderedNodes,
        `renderedEdges, `renderedPath
      ensures !animationFrame && !animationInProgress
      ensures animationQueue == [] && Rendered() == Canvas([], [], [])
      ensures Valid()
    {
      animationFrame := false;
      animationInProgress := false;
      animationQueue := [];
      renderedNodes := [];
      renderedEdges := [];
      renderedPath := [];
    }

    /** `reset`: stops the animation and replaces the whole state, with the default markers for the
        current canvas size. */
    method Reset()
      modifies this
      ensures Valid()
      ensures start == DefaultStart(width, height) && goal == DefaultGoal(width, height)
      ensures obstacles == [] && nodes == [] && edges == [] && path == [] && mode == NoMode
      ensures !animationInProgress && !animationFrame
      ensures animationQueue == [] && Rendered() == Canvas([], [], [])
    {
      StopAnimation();
      start := DefaultStart(width, height);
      goal := DefaultGoal(width, height);
      obstacles := [];
      nodes := [];
      edges := [];
      path := [];
      mode := NoMode;
    }

    /** `clearResult`: stops the animation and drops the tree and path; the scene stays. */
    method ClearResult()
      modifies `nodes, `edges, `path, `animationFrame, `animationInProgress, `animationQueue,
        `renderedNodes, `renderedEdges, `renderedPath
      ensures Valid()
      ensures nodes == [] && edges == [] && path == []
      ensures !animationInProgress && !animationFrame
      ensures animationQueue == [] && Rendered() == Canvas([], [], [])
    {
      StopAnimation();
      nodes := [];
      edges := [];
      path := [];
      animationInProgress := false;
    }

    /** The `for` loop of `animateStep`: the taken events applied in order to the rendered lists,
        stopping at the first TypeError. */
    method PlayEvents(items: seq<AnimEvent>) returns (threw: bool)
      modifies `renderedNodes, `renderedEdges, `renderedPath
      ensures Replay(Rendered(), threw) == ApplyAll(old(Rendered()), items)
    {
      ghost var c0 := Rendered();
      var i := 0;
      while i < |items|
        invariant 0 <= i <= |items|
        invariant ApplyAll(c0, items[..i]) == Replay(Rendered(), false)
      {
        ApplyAllAppend(c0, items[..i], [items[i]]);
        assert items[..i + 1] == items[..i] + [items[i]];
        match items[i] {
          case EdgeEvent(seg, _) =>
            renderedEdges := renderedEdges + [seg];
            var probe := SomeEqual(renderedNodes, seg.to);
            if probe == Throws {
              ApplyAllAppend(c0, items[..i + 1], items[i + 1..]);
              assert items[..i + 1] + items[i + 1..] == items;
              return true;
            }
            if probe == Missing {
              renderedNodes := renderedNodes + [seg.to];
            }
          case PathEvent(from, to) =>
            if renderedPath == [] {
              renderedPath := renderedPath + [from];
            }
            renderedPath := renderedPath + [to];
        }
        i := i + 1;
      }
      assert items[..i] == items;
      threw := false;
    }

    /** `animateStep`, run by the browser for each scheduled frame. When the queue is empty or the
        animation was stopped it only clears the flag. Otherwise it takes the first
        `ceil(speed)` events off the queue, applies them in order, repaints and schedules the next
        frame; a TypeError in an event or in the repaint ends the frame early, with the events
        already taken gone from the queue, the flag still set and no frame scheduled. */
    method Step() returns (outcome: StepOutcome)
      requires Valid()
      modifies `animationInProgress, `animationQueue, `animationFrame, `renderedNodes, `renderedEdges,
        `renderedPath, `played, `broken
      ensures Valid()
      ensures old(animationQueue) == [] || !old(animationInProgress) ==>
        && outcome == Finished && !animationInProgress && animationFrame == old(animationFrame)
        && animationQueue == old(animationQueue) && Rendered() == old(Rendered())
      ensures old(animationQueue) != [] && old(animationInProgress) ==>
        var n := TakeCount(speed, |old(animationQueue)|);
        var r := ApplyAll(old(Rendered()), old(animationQueue)[..n]);
        && animationQueue == old(animationQueue)[n..]
        && Rendered() == r.canvas
        && animationInProgress
        && (outcome == Threw <==> r.threw || (animationEnabled && !Renderable(r.canvas)))
        && (outcome == Threw ==> animationFrame == old(animationFrame))
        && (outcome != Threw ==> outcome == Continued && animationFrame)
      ensures old(animationInProgress) && !old(broken) && outcome == Finished ==>
        Rendered() == ApplyAll(Seed(animNodes), AnimationQueue(animNodes, animEdges, animPath)).canvas
    {
      if animationQueue == [] || !animationInProgress {
        animationInProgress := false;
        if old(animationInProgress) && !broken {
          assert played == AnimationQueue(animNodes, animEdges, animPath);
        }
        return Finished;
      }
      var n := TakeCount(speed, |animationQueue|);
      var items := animationQueue[..n];
      assert items + animationQueue[n..] == animationQueue;
      animationQueue := animationQueue[n..];
      ReplayKeepsDistinct(Rendered(), items);
      var threw := PlayEvents(items);
      if threw {
        broken := true;
        return Threw;
      }
      if !broken {
        ApplyAllAppend(Seed(animNodes), played, items);
      }
      played := played + items;
      if RenderFails() {
        broken := true;
        return Threw;
      }
      animationFrame := true;
      outcome := Continued;
    }

    /** `startAnimation`: seeds the rendered nodes with the first vertex, queues every edge and then
        every path segment, and runs the first frame at once. */
    method StartAnimation(ns: seq<Point>, es: seq<IndexEdge>, ps: seq<Point>) returns (outcome: StepOutcome)
      requires Valid()
      modifies `animationInProgress, `animationQueue, `animationFrame, `renderedNodes, `renderedEdges,
        `renderedPath, `played, `broken, `animNodes, `animEdges, `animPath
      ensures Valid()
      ensures animNodes == ns && animEdges == es && animPath == ps
      ensures AnimationQueue(ns, es, ps) == [] ==>
        outcome == Finished && !animationInProgress && Rendered() == Seed(ns)
      ensures AnimationQueue(ns, es, ps) != [] ==>
        var q := AnimationQueue(ns, es, ps);
        var n := TakeCount(speed, |q|);
        var r := ApplyAll(Seed(ns), q[..n]);
        && animationQueue == q[n..] && Rendered() == r.canvas && animationInProgress
        && (outcome == Threw <==> r.threw || (animationEnabled && !Renderable(r.canvas)))
        && (outcome != Threw ==> outcome == Continued && animationFrame)
    {
      animationInProgress := true;
      renderedNodes := [Lookup(ns, 0)];
      renderedEdges := [];
      renderedPath := [];
      animationQueue := BuildQueue(ns, es, ps);
      animNodes, animEdges, animPath := ns, es, ps;
      played := [];
      broken := false;
      outcome := Step();
    }

    /** `updateResult`: a missing result is ignored. Otherwise the old result is cleared, the new
        vertices, edges and path (each empty when absent) are stored, and the animation starts when
        it is enabled and there is an edge or a path point to show. */
    method UpdateResult(result: Option<PlanResult>) returns (outcome: Option<StepOutcome>)
      requires Valid()
      modifies `nodes, `edges, `path, `animationFrame, `animationInProgress, `animationQueue,
        `renderedNodes, `renderedEdges, `renderedPath, `played, `broken, `animNodes, `animEdges, `animPath
      ensures Valid()
      ensures result.None? ==>
        && outcome.None? && nodes == old(nodes) && edges == old(edges)
        && path == old(path) && animationInProgress == old(animationInProgress)
        && animationQueue == old(animationQueue) && Rendered() == old(Rendered())
      ensures result.Some? ==>
        && nodes == (match result.value.vertices case Some(v) => v case None => [])
        && edges == (match result.value.edges case Some(e) => e case None => [])
        && path == (match result.value.path case Some(p) => p case None => [])
        && (outcome.Some? <==> animationEnabled && (edges != [] || path != []))
        && (outcome.None? ==> !animationInProgress && animationQueue == [] && Rendered() == Canvas([], [], []))
        && (outcome.Some? ==> animNodes == nodes && animEdges == edges && animPath == path)
    {
      if result.None? {
        return None;
      }
      ClearResult();
      var ns := match result.value.vertices case Some(v) => v case None => [];
      var es := match result.value.edges case Some(e) => e case None => [];
      var ps := match result.value.path case Some(p) => p case None => [];
      nodes := ns;
      edges := es;
      path := ps;
      if animationEnabled && (|es| > 0 || |ps| > 0) {
        var o := StartAnimation(ns, es, ps);
        outcome := Some(o);
      } else {
        outcome := None;
      }
    }
  }
}
