/**
 * The planners' configuration space: a rectangle `[0, width] x [0, height]`
 * and a mutable list of obstacles. The obstacles' own geometry (segment and
 * point tests) is not modelled; the tests are passed in as functions over
 * an opaque obstacle type `O`.
 */
module ConfigSpace {
  import opened Common

  /** A Python argument that either is an `Obstacle` instance or is something else. */
  datatype PyValue<O> = ObstacleValue(obstacle: O) | OtherValue

  /** The exceptions the space raises. */
  datatype SpaceError = TypeError | IndexError

  /** The `bounds` dictionary. */
  datatype Bounds = Bounds(xMin: real, xMax: real, yMin: real, yMax: real)

  /** `lo <= p.x <= hi`-style closed test on both axes. */
  predicate Inside(b: Bounds, p: Vec)
  {
    b.xMin <= p.x <= b.xMax && b.yMin <= p.y <= b.yMax
  }

  /** The point a fraction `u` of the way from `lo` to `hi`. */
  function Lerp(lo: real, hi: real, u: real): real
  {
    lo + u * (hi - lo)
  }

  /** A unit fraction of the way from `lo` to `hi` stays between them. */
  lemma ScaleWithin(u: real, lo: real, hi: real)
    requires 0.0 <= u <= 1.0 && lo <= hi
    ensures lo <= Lerp(lo, hi, u) <= hi
  {
    var d := hi - lo;
    assert 0.0 <= u * d;
    assert 0.0 <= (1.0 - u) * d;
    assert (1.0 - u) * d == d - u * d;
    assert u * (hi - lo) == u * d;
  }

  /** `np.random.uniform(lo, hi)` on both axes, for the unit fractions `u` and `v`. */
  function Uniform(b: Bounds, u: real, v: real): Vec
  {
    Vec(Lerp(b.xMin, b.xMax, u), Lerp(b.yMin, b.yMax, v))
  }

  /** Unit fractions of a well-ordered rectangle land inside it. */
  lemma UniformInBounds(b: Bounds, u: real, v: real)
    requires 0.0 <= u <= 1.0 && 0.0 <= v <= 1.0 && b.xMin <= b.xMax && b.yMin <= b.yMax
    ensures Inside(b, Uniform(b, u, v))
  {
    ScaleWithin(u, b.xMin, b.xMax);
    ScaleWithin(v, b.yMin, b.yMax);
  }

  /** The answer `is_collision_free` gives: both ends inside and no obstacle crossing the segment. */
  predicate SegmentFree<O>(b: Bounds, obstacles: seq<O>, hits: (O, Vec, Vec) -> bool, a: Vec, c: Vec)
  {
    Inside(b, a) && Inside(b, c) && forall i :: 0 <= i < |obstacles| ==> !hits(obstacles[i], a, c)
  }

  /** No obstacle of the list contains `p`. */
  predicate PointFree<O>(obstacles: seq<O>, contains: (O, Vec) -> bool, p: Vec)
  {
    forall i :: 0 <= i < |obstacles| ==> !contains(obstacles[i], p)
  }

  /** The list with element `i` deleted, as `del xs[i]` leaves it. */
  function Without<O>(xs: seq<O>, i: nat): (r: seq<O>)
    requires i < |xs|
    ensures |r| == |xs| - 1
    ensures forall j :: 0 <= j < i ==> r[j] == xs[j]
    ensures forall j :: i <= j < |r| ==> r[j] == xs[j + 1]
  {
    xs[..i] + xs[i + 1..]
  }

  /** Adding an obstacle never frees a segment: a segment free after `add_obstacle` was free before. */
  lemma MoreObstaclesNeverFree<O>(b: Bounds, obstacles: seq<O>, o: O, hits: (O, Vec, Vec) -> bool, a: Vec, c: Vec)
    requires SegmentFree(b, obstacles + [o], hits, a, c)
    ensures SegmentFree(b, obstacles, hits, a, c)
    ensures !hits(o, a, c)
  {
    var longer := obstacles + [o];
    assert longer[|obstacles|] == o;
    forall j | 0 <= j < |obstacles|
      ensures !hits(obstacles[j], a, c)
    {
      assert longer[j] == obstacles[j];
    }
  }

  /** Removing obstacles never makes a free segment blocked. */
  lemma FewerObstaclesStayFree<O>(b: Bounds, obstacles: seq<O>, i: nat, hits: (O, Vec, Vec) -> bool, a: Vec, c: Vec)
    requires i < |obstacles|
    requires SegmentFree(b, obstacles, hits, a, c)
    ensures SegmentFree(b, Without(obstacles, i), hits, a, c)
  {
    var r := Without(obstacles, i);
    forall j | 0 <= j < |r|
      ensures !hits(r[j], a, c)
    {
      if j < i {
        assert r[j] == obstacles[j];
      } else {
        assert r[j] == obstacles[j + 1];
      }
    }
  }

  class ConfigurationSpace<O> {
    const width: real
    const height: real
    const bounds: Bounds := Bounds(0.0, width, 0.0, height)
    var obstacles: seq<O>

    /** `obstacles or []`: a missing or empty list both start the space empty. */
    constructor (width: real, height: real, obstacles: Option<seq<O>>)
      ensures this.width == width && this.height == height
      ensures bounds == Bounds(0.0, width, 0.0, height)
      ensures this.obstacles == (if obstacles.Some? then obstacles.value else [])
    {
      this.width := width;
      this.height := height;
      this.obstacles := if obstacles.Some? then obstacles.value else [];
    }

    /** `add_obstacle`: appends an `Obstacle`, raises `TypeError` for anything else. */
    method AddObstacle(v: PyValue<O>) returns (raised: Option<SpaceError>)
      modifies this`obstacles
      ensures v.ObstacleValue? ==> raised.None? && obstacles == old(obstacles) + [v.obstacle]
      ensures v.OtherValue? ==> raised == Some(TypeError) && obstacles == old(obstacles)
    {
      if v.ObstacleValue? {
        obstacles := obstacles + [v.obstacle];
        raised := None;
      } else {
        raised := Some(TypeError);
      }
    }

    /** `remove_obstacle`: deletes element `index` when `0 <= index < len`, raises `IndexError` otherwise. */
    method RemoveObstacle(index: int) returns (raised: Option<SpaceError>)
      modifies this`obstacles
      ensures 0 <= index < |old(obstacles)| ==> raised.None? && obstacles == Without(old(obstacles), index)
      ensures !(0 <= index < |old(obstacles)|) ==> raised == Some(IndexError) && obstacles == old(obstacles)
    {
      if 0 <= index < |obstacles| {
        obstacles := Without(obstacles, index);
        raised := None;
      } else {
        raised := Some(IndexError);
      }
    }

    method ClearObstacles()
      modifies this`obstacles
      ensures obstacles == []
    {
      obstacles := [];
    }

    /** `is_in_bounds`: closed intervals on both axes. */
    predicate IsInBounds(p: Vec)
    {
      Inside(bounds, p)
    }

    /**
     * `is_collision_free`: false as soon as an endpoint is outside the bounds,
     * then false at the first obstacle whose segment test succeeds, true otherwise.
     */
    method IsCollisionFree(a: Vec, c: Vec, hits: (O, Vec, Vec) -> bool) returns (free: bool)
      ensures free <==> SegmentFree(bounds, obstacles, hits, a, c)
      ensures free ==> IsInBounds(a) && IsInBounds(c)
    {
      if !IsInBounds(a) || !IsInBounds(c) {
        return false;
      }
      var i := 0;
      while i < |obstacles|
        invariant 0 <= i <= |obstacles|
        invariant forall j :: 0 <= j < i ==> !hits(obstacles[j], a, c)
      {
        if hits(obstacles[i], a, c) {
          return false;
        }
        i := i + 1;
      }
      return true;
    }

    /**
     * `sample`: `np.random.uniform` on each axis, given the two unit fractions
     * `u` and `v` the generator drew. Fractions in `[0, 1]` land inside the bounds.
     */
    function Sample(u: real, v: real): (p: Vec)
      ensures 0.0 <= u <= 1.0 && 0.0 <= v <= 1.0 && 0.0 <= width && 0.0 <= height ==> IsInBounds(p)
    {
      if 0.0 <= u <= 1.0 && 0.0 <= v <= 1.0 && 0.0 <= width && 0.0 <= height then
        UniformInBounds(bounds, u, v);
        Uniform(bounds, u, v)
      else
        Uniform(bounds, u, v)
    }

    /** Every point of a non-degenerate space is the sample of some pair of unit fractions. */
    lemma SampleCoversBounds(p: Vec)
      requires 0.0 < width && 0.0 < height && IsInBounds(p)
      ensures 0.0 <= p.x / width <= 1.0 && 0.0 <= p.y / height <= 1.0
      ensures Sample(p.x / width, p.y / height) == p
    {
      assert (p.x / width) * width == p.x;
      assert (p.y / height) * height == p.y;
    }

    /** A draw's two fractions both lie in `[0, 1]`. */
    predicate UnitFractions(f: (real, real))
    {
      0.0 <= f.0 <= 1.0 && 0.0 <= f.1 <= 1.0
    }

    /**
     * `sample_free`: up to `maxAttempts` calls of `sample` (attempt `k` draws the
     * fractions `fractions(k)`), returning the first point no obstacle contains, or `None`.
     */
    method SampleFree(maxAttempts: int, fractions: nat -> (real, real), contains: (O, Vec) -> bool) returns (r: Option<Vec>)
      ensures r.Some? ==> PointFree(obstacles, contains, r.value)
      ensures r.Some? ==> exists k :: 0 <= k < maxAttempts && r.value == Sample(fractions(k).0, fractions(k).1) &&
                            forall j :: 0 <= j < k ==> !PointFree(obstacles, contains, Sample(fractions(j).0, fractions(j).1))
      ensures r.None? <==> forall k :: 0 <= k < maxAttempts ==> !PointFree(obstacles, contains, Sample(fractions(k).0, fractions(k).1))
      ensures r.Some? && 0.0 <= width && 0.0 <= height && (forall k :: 0 <= k < maxAttempts ==> UnitFractions(fractions(k))) ==>
                IsInBounds(r.value)
    {
      var attempt := 0;
      while attempt < maxAttempts
        invariant attempt <= maxAttempts || maxAttempts <= 0
        invariant forall j :: 0 <= j < attempt ==> !PointFree(obstacles, contains, Sample(fractions(j).0, fractions(j).1))
      {
        var point := Sample(fractions(attempt).0, fractions(attempt).1);
        var collision := false;
        var i := 0;
        while i < |obstacles|
          invariant 0 <= i <= |obstacles|
          invariant !collision
          invariant forall j :: 0 <= j < i ==> !contains(obstacles[j], point)
        {
          if contains(obstacles[i], point) {
            collision := true;
            break;
          }
          i := i + 1;
        }
        if !collision {
          return Some(point);
        }
        attempt := attempt + 1;
      }
      return None;
    }
  }
}
