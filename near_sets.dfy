/**
 * The RRT* near-vertex search: which tree vertices lie strictly inside the
 * search radius of a point, capped at a fixed number, and in which order.
 * Distances are given as a sequence `ds` with `ds[i]` the distance from
 * vertex `i` to the point; ties are broken the way Python orders
 * `(distance, index)` tuples.
 */
module NearSets {

  /** A `(distance, index)` tuple. */
  datatype Pair = Pair(dist: real, idx: nat)

  /** Python's `<` on `(distance, index)` tuples: lexicographic. */
  predicate Before(a: Pair, b: Pair)
  {
    a.dist < b.dist || (a.dist == b.dist && a.idx < b.idx)
  }

  /** `Before` is a strict total order. */
  lemma BeforeStrictTotal(a: Pair, b: Pair, c: Pair)
    ensures !Before(a, a)
    ensures Before(a, b) ==> !Before(b, a)
    ensures Before(a, b) && Before(b, c) ==> Before(a, c)
    ensures a != b ==> Before(a, b) || Before(b, a)
  {
  }

  /** No element comes before an earlier one: the order `list.sort` leaves. */
  predicate Sorted(s: seq<Pair>)
  {
    forall i, j :: 0 <= i < j < |s| ==> !Before(s[j], s[i])
  }

  /** Strictly increasing in tuple order. */
  predicate Ascending(s: seq<Pair>)
  {
    forall i, j :: 0 <= i < j < |s| ==> Before(s[i], s[j])
  }

  predicate Distinct<T(==)>(s: seq<T>)
  {
    forall i, j :: 0 <= i < j < |s| ==> s[i] != s[j]
  }

  /** Puts `p` in place in a sorted list. */
  function Insert(p: Pair, s: seq<Pair>): (r: seq<Pair>)
    requires Sorted(s)
    ensures |r| == |s| + 1 && forall x :: x in r <==> x == p || x in s
    ensures Sorted(r) && multiset(r) == multiset(s) + multiset{p}
    ensures p !in s && Ascending(s) ==> Ascending(r)
  {
    if |s| == 0 then [p]
    else if Before(s[0], p) then
      assert s == [s[0]] + s[1..];
      var rest := Insert(p, s[1..]);
      InsertStep(p, s, rest);
      [s[0]] + rest
    else
      [p] + s
  }

  /** The head of a sorted list stays ahead of a later element inserted after it. */
  lemma InsertStep(p: Pair, s: seq<Pair>, rest: seq<Pair>)
    requires Sorted(s) && |s| > 0 && Before(s[0], p)
    requires Sorted(rest) && forall x :: x in rest <==> x == p || x in s[1..]
    requires p !in s && Ascending(s) ==> Ascending(rest)
    ensures Sorted([s[0]] + rest)
    ensures p !in s && Ascending(s) ==> Ascending([s[0]] + rest)
  {
    var r := [s[0]] + rest;
    forall j | 0 < j < |r|
      ensures !Before(r[j], s[0]) && (p !in s && Ascending(s) ==> Before(s[0], r[j]))
    {
      assert r[j] == rest[j - 1] && r[j] in rest;
      if r[j] != p {
        var m :| 0 <= m < |s[1..]| && s[1..][m] == r[j];
        assert s[m + 1] == r[j];
      }
    }
  }

  /** `sorted(s)` / `s.sort()`: the same pairs in tuple order. */
  function SortPairs(s: seq<Pair>): (r: seq<Pair>)
    ensures |r| == |s| && forall x :: x in r <==> x in s
    ensures Sorted(r) && multiset(r) == multiset(s)
    ensures Distinct(s) ==> Ascending(r)
  {
    if |s| == 0 then []
    else
      var last := |s| - 1;
      assert s == s[..last] + [s[last]];
      assert Distinct(s) ==> Distinct(s[..last]) && s[last] !in s[..last];
      Insert(s[last], SortPairs(s[..last]))
  }

  /** A list's own elements, first `k` of them (Python's `s[:k]`). */
  function Take<T>(s: seq<T>, k: nat): (r: seq<T>)
    ensures |r| == if k < |s| then k else |s|
    ensures forall j :: 0 <= j < |r| ==> r[j] == s[j]
  {
    if k < |s| then s[..k] else s
  }

  /** The index of each pair, in order. */
  function Indices(s: seq<Pair>): (r: seq<nat>)
    ensures |r| == |s| && forall j :: 0 <= j < |s| ==> r[j] == s[j].idx
  {
    seq(|s|, j requires 0 <= j < |s| => s[j].idx)
  }

  /** The tuple for vertex `i`. */
  function KeyOf(ds: seq<real>, i: nat): Pair
    requires i < |ds|
  {
    Pair(ds[i], i)
  }

  /** The tuples of the listed vertices, as `zip(distances, near_indices)` builds them. */
  function Keys(ds: seq<real>, idx: seq<nat>): (r: seq<Pair>)
    requires forall j :: 0 <= j < |idx| ==> idx[j] < |ds|
    ensures |r| == |idx| && forall j :: 0 <= j < |idx| ==> r[j] == KeyOf(ds, idx[j])
  {
    seq(|idx|, j requires 0 <= j < |idx| => KeyOf(ds, idx[j]))
  }

  /** How many of the first `n` vertices lie strictly inside `radius`. */
  function CountInside(ds: seq<real>, n: nat, radius: real): nat
    requires n <= |ds|
  {
    if n == 0 then 0 else CountInside(ds, n - 1, radius) + (if ds[n - 1] < radius then 1 else 0)
  }

  /** The tuples of the vertices among the first `n` that lie strictly inside `radius`, in index order. */
  function RadiusPairs(ds: seq<real>, n: nat, radius: real): (r: seq<Pair>)
    requires n <= |ds|
    ensures |r| == CountInside(ds, n, radius)
    ensures InsideKeys(ds, n, radius, r)
  {
    if n == 0 then []
    else
      RadiusPairs(ds, n - 1, radius) + (if ds[n - 1] < radius then [KeyOf(ds, n - 1)] else [])
  }

  /** The inside tuples come in increasing index order, so none repeats. */
  lemma {:induction false} RadiusPairsOrdered(ds: seq<real>, n: nat, radius: real)
    requires n <= |ds|
    ensures var r := RadiusPairs(ds, n, radius);
            (forall a, b :: 0 <= a < b < |r| ==> r[a].idx < r[b].idx) && Distinct(r) && Distinct(Indices(r))
  {
    if n > 0 {
      RadiusPairsOrdered(ds, n - 1, radius);
      var r0 := RadiusPairs(ds, n - 1, radius);
      var r := RadiusPairs(ds, n, radius);
      assert r == r0 + (if ds[n - 1] < radius then [KeyOf(ds, n - 1)] else []);
      forall a, b | 0 <= a < b < |r|
        ensures r[a].idx < r[b].idx
      {
        if b < |r0| {
          assert r[a] == r0[a] && r[b] == r0[b];
        } else {
          assert r[a] == r0[a] && r[b] == KeyOf(ds, n - 1);
        }
      }
      assert Distinct(r) by {
        forall a, b | 0 <= a < b < |r|
          ensures r[a] != r[b]
        {
          assert r[a].idx < r[b].idx;
        }
      }
    }
  }

  /** The inside tuples miss no inside vertex. */
  lemma {:induction false} RadiusPairsComplete(ds: seq<real>, n: nat, radius: real)
    requires n <= |ds|
    ensures forall i :: 0 <= i < n && ds[i] < radius ==> KeyOf(ds, i) in RadiusPairs(ds, n, radius)
  {
    if n > 0 {
      RadiusPairsComplete(ds, n - 1, radius);
      var r0 := RadiusPairs(ds, n - 1, radius);
      var r := RadiusPairs(ds, n, radius);
      assert r == r0 + (if ds[n - 1] < radius then [KeyOf(ds, n - 1)] else []);
      forall i | 0 <= i < n && ds[i] < radius
        ensures KeyOf(ds, i) in r
      {
        if i < n - 1 {
          assert KeyOf(ds, i) in r0;
          var m :| 0 <= m < |r0| && r0[m] == KeyOf(ds, i);
          assert r[m] == r0[m];
        } else {
          assert r[|r| - 1] == KeyOf(ds, i);
        }
      }
    }
  }

  /**
   * `near` holds the vertices among the first `n` that are nearest to the
   * point, strictly inside `radius`: no repeats, `min(k, count)` of them, and
   * every inside vertex left out comes after every one kept.
   */
  ghost predicate Nearest(ds: seq<real>, n: nat, radius: real, k: nat, near: seq<nat>)
    requires n <= |ds|
  {
    var count := CountInside(ds, n, radius);
    (forall j :: 0 <= j < |near| ==> near[j] < n && ds[near[j]] < radius) &&
    Distinct(near) &&
    |near| == (if k < count then k else count) &&
    AheadOfRest(ds, n, radius, near)
  }

  /** Every listed vertex comes before every inside vertex among the first `n` that is not listed. */
  ghost predicate AheadOfRest(ds: seq<real>, n: nat, radius: real, near: seq<nat>)
    requires n <= |ds| && forall j :: 0 <= j < |near| ==> near[j] < n
  {
    forall i, j :: 0 <= i < n && ds[i] < radius && i !in near && 0 <= j < |near| ==>
      Before(KeyOf(ds, near[j]), KeyOf(ds, i))
  }

  /** A list of tuples in strictly increasing order lists each vertex once. */
  lemma AscendingKeysDistinct(ds: seq<real>, s: seq<Pair>)
    requires Ascending(s)
    requires forall j :: 0 <= j < |s| ==> s[j].idx < |ds| && s[j] == KeyOf(ds, s[j].idx)
    ensures Distinct(Indices(s))
  {
    forall a, b | 0 <= a < b < |s|
      ensures s[a].idx != s[b].idx
    {
      assert Before(s[a], s[b]);
    }
  }

  /** Every tuple of `s` is the key of a vertex among the first `n` inside `radius`. */
  predicate InsideKeys(ds: seq<real>, n: nat, radius: real, s: seq<Pair>)
  {
    forall j :: 0 <= j < |s| ==> s[j].idx < n && s[j].idx < |ds| && ds[s[j].idx] < radius && s[j] == KeyOf(ds, s[j].idx)
  }

  /** Every listed tuple comes before the tuple of every inside vertex among the first `n` that is not listed. */
  ghost predicate KeysAheadOfRest(ds: seq<real>, n: nat, radius: real, s: seq<Pair>)
    requires n <= |ds|
  {
    forall i, j :: 0 <= i < n && ds[i] < radius && i !in Indices(s) && 0 <= j < |s| ==>
      Before(s[j], KeyOf(ds, i))
  }

  /**
   * An ascending list of inside keys, as long as the selection must be and
   * ahead of every inside vertex it leaves out, lists the nearest vertices.
   */
  lemma SelectionIsNearest(ds: seq<real>, n: nat, radius: real, k: nat, s: seq<Pair>)
    requires n <= |ds| && Ascending(s) && InsideKeys(ds, n, radius, s)
    requires var count := CountInside(ds, n, radius); |s| == (if k < count then k else count)
    requires KeysAheadOfRest(ds, n, radius, s)
    ensures Nearest(ds, n, radius, k, Indices(s))
  {
    AscendingKeysDistinct(ds, s);
  }

  /**
   * Sorting the inside tuples and keeping the first `k` indices selects the
   * `k` nearest inside vertices, in increasing order of distance.
   */
  lemma {:induction false} SortedPrefixIsNearest(ds: seq<real>, n: nat, radius: real, k: nat)
    requires n <= |ds|
    ensures var s := Take(SortPairs(RadiusPairs(ds, n, radius)), k);
            Nearest(ds, n, radius, k, Indices(s)) && Ascending(s)
  {
    SortedPrefixOrder(ds, n, radius, k);
    SelectionIsNearest(ds, n, radius, k, Take(SortPairs(RadiusPairs(ds, n, radius)), k));
  }

  /**
   * The indices of the first `k` tuples of the sorted inside list: the `k`
   * nearest inside vertices, nearest first.
   */
  function NearIndices(ds: seq<real>, n: nat, radius: real, k: nat): (near: seq<nat>)
    requires n <= |ds|
    ensures Nearest(ds, n, radius, k, near)
    ensures forall a, b :: 0 <= a < b < |near| ==> ds[near[a]] <= ds[near[b]]
  {
    SortedPrefixIsNearest(ds, n, radius, k);
    SortedPrefixOrder(ds, n, radius, k);
    Indices(Take(SortPairs(RadiusPairs(ds, n, radius)), k))
  }

  /** The first `k` sorted inside tuples are inside keys in increasing order, ahead of every inside vertex they leave out. */
  lemma SortedPrefixOrder(ds: seq<real>, n: nat, radius: real, k: nat)
    requires n <= |ds|
    ensures var s := Take(SortPairs(RadiusPairs(ds, n, radius)), k);
            Ascending(s) && InsideKeys(ds, n, radius, s) && KeysAheadOfRest(ds, n, radius, s)
  {
    var p := RadiusPairs(ds, n, radius);
    RadiusPairsOrdered(ds, n, radius);
    var sorted := SortPairs(p);
    var s := Take(sorted, k);
    assert InsideKeys(ds, n, radius, s) by {
      forall j | 0 <= j < |s|
        ensures s[j] in p
      {
        assert s[j] == sorted[j];
      }
    }
    SortedPrefixAhead(ds, n, radius, k);
  }

  /** The first `k` sorted inside tuples come before every inside vertex they leave out. */
  lemma SortedPrefixAhead(ds: seq<real>, n: nat, radius: real, k: nat)
    requires n <= |ds|
    ensures KeysAheadOfRest(ds, n, radius, Take(SortPairs(RadiusPairs(ds, n, radius)), k))
  {
    var sorted := SortPairs(RadiusPairs(ds, n, radius));
    var s := Take(sorted, k);
    RadiusPairsOrdered(ds, n, radius);
    RadiusPairsComplete(ds, n, radius);
    forall i, j | 0 <= i < n && ds[i] < radius && i !in Indices(s) && 0 <= j < |s|
      ensures Before(s[j], KeyOf(ds, i))
    {
      PrefixAhead(sorted, k, KeyOf(ds, i), j);
    }
  }

  /** In an ascending list, an element found outside the first `k` comes after each of them. */
  lemma PrefixAhead(sorted: seq<Pair>, k: nat, x: Pair, j: nat)
    requires Ascending(sorted) && x in sorted && x !in Take(sorted, k) && j < |Take(sorted, k)|
    ensures Before(sorted[j], x)
  {
    var q :| 0 <= q < |sorted| && sorted[q] == x;
    assert q >= |Take(sorted, k)|;
  }

  /** Adding the vertex after the first `n` keeps the earlier inside tuples and adds its own when it is inside. */
  lemma RadiusPairsStep(ds: seq<real>, n: nat, radius: real)
    requires n < |ds|
    ensures RadiusPairs(ds, n + 1, radius) ==
              RadiusPairs(ds, n, radius) + (if ds[n] < radius then [KeyOf(ds, n)] else [])
  {
  }

  /** While no more than `k` vertices are inside, the list of all of them in index order is the nearest selection. */
  lemma AllInsideIsNearest(ds: seq<real>, n: nat, radius: real, k: nat)
    requires n <= |ds| && CountInside(ds, n, radius) <= k
    ensures Nearest(ds, n, radius, k, Indices(RadiusPairs(ds, n, radius)))
  {
    var p := RadiusPairs(ds, n, radius);
    RadiusPairsOrdered(ds, n, radius);
    RadiusPairsComplete(ds, n, radius);
    var near := Indices(p);
    forall i | 0 <= i < n && ds[i] < radius
      ensures i in near
    {
      var q :| 0 <= q < |p| && p[q] == KeyOf(ds, i);
      assert near[q] == i;
    }
  }

  /**
   * `sorted(zip(distances, near_indices))[:k]`: the candidates' tuples in
   * increasing order, cut to the first `k`.
   */
  function Truncate(ds: seq<real>, cand: seq<nat>, k: nat): (r: seq<Pair>)
    requires forall j :: 0 <= j < |cand| ==> cand[j] < |ds|
    ensures |r| == if k < |cand| then k else |cand|
    ensures forall j :: 0 <= j < |r| ==> r[j] in Keys(ds, cand)
  {
    var sorted := SortPairs(Keys(ds, cand));
    assert forall j :: 0 <= j < |sorted| ==> sorted[j] in Keys(ds, cand);
    Take(sorted, k)
  }

  /**
   * One truncation of the incremental search: with `near` the nearest
   * `k > 0` among the first `n` and vertex `n` inside, sorting the `k + 1`
   * candidates and keeping the first `k` gives the nearest `k` among the
   * first `n + 1`.
   */
  lemma {:induction false} TruncateKeepsNearest(ds: seq<real>, n: nat, radius: real, k: nat, near: seq<nat>)
    requires n < |ds| && ds[n] < radius && k > 0
    requires Nearest(ds, n, radius, k, near) && |near| == k
    ensures Nearest(ds, n + 1, radius, k, Indices(Truncate(ds, near + [n], k)))
  {
    TruncationOrder(ds, n, radius, k, near);
    SelectionIsNearest(ds, n + 1, radius, k, Truncate(ds, near + [n], k));
  }

  /**
   * What the incremental search of `near_vertices` keeps after the first
   * `n` vertices: the nearest selection, and while no more than `k` are
   * inside, all of them in index order.
   */
  ghost predicate IncrementalNear(ds: seq<real>, n: nat, radius: real, k: nat, near: seq<nat>)
    requires n <= |ds|
  {
    Nearest(ds, n, radius, k, near) &&
    (CountInside(ds, n, radius) <= k ==> near == Indices(RadiusPairs(ds, n, radius)))
  }

  /**
   * One pass of the incremental search: vertex `n` is appended when it is
   * inside, and a list that outgrows `k` is sorted and cut back to `k`.
   */
  function NextNear(ds: seq<real>, n: nat, radius: real, k: nat, near: seq<nat>): seq<nat>
    requires n < |ds| && forall j :: 0 <= j < |near| ==> near[j] < |ds|
  {
    if radius <= ds[n] then near
    else if |near| + 1 > k then Indices(Truncate(ds, near + [n], k))
    else near + [n]
  }

  /** A pass of the incremental search only ever lists vertices it has passed. */
  lemma NextNearBound(ds: seq<real>, n: nat, radius: real, k: nat, near: seq<nat>)
    requires n < |ds| && forall j :: 0 <= j < |near| ==> near[j] < n
    ensures var r := NextNear(ds, n, radius, k, near); forall j :: 0 <= j < |r| ==> r[j] <= n
  {
    if ds[n] < radius && |near| + 1 > k {
      var cand := near + [n];
      var r := Truncate(ds, cand, k);
      forall j | 0 <= j < |r|
        ensures r[j].idx <= n
      {
        var keys := Keys(ds, cand);
        var m :| 0 <= m < |keys| && keys[m] == r[j];
      }
    }
  }

  /** The list the incremental search holds after its first `n` passes. */
  function NearAfter(ds: seq<real>, n: nat, radius: real, k: nat): (near: seq<nat>)
    requires n <= |ds|
    ensures forall j :: 0 <= j < |near| ==> near[j] < n
  {
    if n == 0 then []
    else
      var prev := NearAfter(ds, n - 1, radius, k);
      NextNearBound(ds, n - 1, radius, k, prev);
      NextNear(ds, n - 1, radius, k, prev)
  }

  /** After any number of passes the incremental search holds what it promises. */
  lemma {:induction false} NearAfterIsIncremental(ds: seq<real>, n: nat, radius: real, k: nat)
    requires n <= |ds| && k > 0
    ensures IncrementalNear(ds, n, radius, k, NearAfter(ds, n, radius, k))
  {
    if n > 0 {
      NearAfterIsIncremental(ds, n - 1, radius, k);
      IncrementalStep(ds, n - 1, radius, k, NearAfter(ds, n - 1, radius, k));
    }
  }

  /** A pass of the incremental search keeps what it promises, one vertex further on. */
  lemma IncrementalStep(ds: seq<real>, n: nat, radius: real, k: nat, near: seq<nat>)
    requires n < |ds| && k > 0 && IncrementalNear(ds, n, radius, k, near)
    ensures IncrementalNear(ds, n + 1, radius, k, NextNear(ds, n, radius, k, near))
  {
    RadiusPairsStep(ds, n, radius);
    if radius <= ds[n] {
      assert AheadOfRest(ds, n + 1, radius, near);
    } else if |near| + 1 > k {
      TruncateKeepsNearest(ds, n, radius, k, near);
    } else {
      var p := RadiusPairs(ds, n + 1, radius);
      assert Indices(p) == near + [n];
      AllInsideIsNearest(ds, n + 1, radius, k);
    }
  }

  /** The `k + 1` candidates of a truncation, sorted: distinct inside keys in increasing order. */
  lemma TruncationCandidates(ds: seq<real>, n: nat, radius: real, k: nat, near: seq<nat>)
    requires n < |ds| && ds[n] < radius
    requires Nearest(ds, n, radius, k, near) && |near| == k
    ensures var sorted := SortPairs(Keys(ds, near + [n]));
            Ascending(sorted) && |sorted| == k + 1 && Truncate(ds, near + [n], k) == sorted[..k]
  {
    var cand := near + [n];
    var keys := Keys(ds, cand);
    assert Distinct(keys) by {
      forall a, b | 0 <= a < b < |keys|
        ensures keys[a] != keys[b]
      {
        assert cand[a] != cand[b];
      }
    }
  }

  /** The kept candidates of a truncation are inside keys in increasing order, ahead of every inside vertex they leave out. */
  lemma TruncationOrder(ds: seq<real>, n: nat, radius: real, k: nat, near: seq<nat>)
    requires n < |ds| && ds[n] < radius
    requires Nearest(ds, n, radius, k, near) && |near| == k
    ensures var s := Truncate(ds, near + [n], k);
            Ascending(s) && |s| == k && InsideKeys(ds, n + 1, radius, s) && KeysAheadOfRest(ds, n + 1, radius, s)
  {
    var sorted := SortPairs(Keys(ds, near + [n]));
    var s := Truncate(ds, near + [n], k);
    TruncationCandidates(ds, n, radius, k, near);
    assert KeysAheadOfRest(ds, n + 1, radius, s) by {
      forall i, j | 0 <= i < n + 1 && ds[i] < radius && i !in Indices(s) && 0 <= j < |s|
        ensures Before(s[j], KeyOf(ds, i))
      {
        TruncationAhead(ds, n, radius, k, near, sorted, i, j);
      }
    }
  }

  /** The ordering step of `TruncateKeepsNearest` for one left-out vertex `i` and one kept position `j`. */
  lemma TruncationAhead(ds: seq<real>, n: nat, radius: real, k: nat, near: seq<nat>, sorted: seq<Pair>, i: nat, j: nat)
    requires n < |ds| && |near| == k && forall c :: 0 <= c < k ==> near[c] < n
    requires AheadOfRest(ds, n, radius, near)
    requires Ascending(sorted) && |sorted| == k + 1
    requires forall x :: x in sorted <==> x in Keys(ds, near + [n])
    requires i <= n && ds[i] < radius && KeyOf(ds, i) !in sorted[..k] && j < k
    ensures Before(sorted[j], KeyOf(ds, i))
  {
    var cand := near + [n];
    var keys := Keys(ds, cand);
    if i in cand {
      var c :| 0 <= c < |cand| && cand[c] == i;
      assert keys[c] == KeyOf(ds, i);
      PrefixAhead(sorted, k, KeyOf(ds, i), j);
    } else {
      // `i` was already left out before the truncation, so it comes after
      // every candidate that came from `near`, and the dropped candidate is one of them.
      assert sorted[j] in keys;
      var jc :| 0 <= jc < |cand| && keys[jc] == sorted[j];
      if jc < k {
        assert Before(KeyOf(ds, near[jc]), KeyOf(ds, i));
      } else {
        assert sorted[k] in keys;
        var dc :| 0 <= dc < |cand| && keys[dc] == sorted[k];
        assert Before(sorted[j], sorted[k]);
        assert Before(KeyOf(ds, near[dc]), KeyOf(ds, i));
      }
    }
  }

  /** A subset has no more elements than its superset. */
  lemma {:induction false} SubsetCardinality(a: set<nat>, b: set<nat>)
    requires a <= b
    ensures |a| <= |b|
  {
    if a != {} {
      var x :| x in a;
      SubsetCardinality(a - {x}, b - {x});
    }
  }

  /** No more of the first `n` vertices are inside than there are vertices. */
  lemma {:induction false} CountInsideAtMost(ds: seq<real>, n: nat, radius: real)
    requires n <= |ds|
    ensures CountInside(ds, n, radius) <= n
  {
    if n > 0 {
      CountInsideAtMost(ds, n - 1, radius);
    }
  }

  /** The vertices among the first `n` strictly inside `radius`. */
  ghost function InsideSet(ds: seq<real>, n: nat, radius: real): set<nat>
    requires n <= |ds|
  {
    set i: nat | i < n && ds[i] < radius
  }

  /** The inside vertices whose tuple comes before vertex `x`'s. */
  ghost function Ahead(ds: seq<real>, n: nat, radius: real, x: nat): set<nat>
    requires n <= |ds| && x < |ds|
  {
    set i: nat | i < n && ds[i] < radius && Before(KeyOf(ds, i), KeyOf(ds, x))
  }

  /** A list without repeats has as many distinct elements as entries. */
  lemma {:induction false} DistinctCardinality(s: seq<nat>)
    requires Distinct(s)
    ensures |set j | 0 <= j < |s| :: s[j]| == |s|
  {
    if |s| > 0 {
      var t := s[..|s| - 1];
      assert Distinct(t);
      DistinctCardinality(t);
      var st := set j | 0 <= j < |t| :: t[j];
      var ss := set j | 0 <= j < |s| :: s[j];
      assert ss == st + {s[|s| - 1]};
      assert s[|s| - 1] !in st;
    }
  }

  /** `CountInside` counts the inside vertices. */
  lemma InsideSetSize(ds: seq<real>, n: nat, radius: real)
    requires n <= |ds|
    ensures |InsideSet(ds, n, radius)| == CountInside(ds, n, radius)
  {
    var p := RadiusPairs(ds, n, radius);
    RadiusPairsOrdered(ds, n, radius);
    RadiusPairsComplete(ds, n, radius);
    var ix := Indices(p);
    DistinctCardinality(ix);
    var listed := set j | 0 <= j < |ix| :: ix[j];
    forall i | i in InsideSet(ds, n, radius)
      ensures i in listed
    {
      var q :| 0 <= q < |p| && p[q] == KeyOf(ds, i);
      assert ix[q] == i;
    }
    assert listed == InsideSet(ds, n, radius);
  }

  /**
   * What `Nearest` selects, without reference to any list: an inside vertex
   * is selected exactly when fewer than `k` inside vertices come before it.
   */
  lemma NearestSelects(ds: seq<real>, n: nat, radius: real, k: nat, near: seq<nat>, x: nat)
    requires n <= |ds| && x < |ds|
    requires Nearest(ds, n, radius, k, near)
    ensures x in near <==> x < n && ds[x] < radius && |Ahead(ds, n, radius, x)| < k
  {
    if x in near {
      SelectedFewAhead(ds, n, radius, k, near, x);
    } else if x < n && ds[x] < radius {
      LeftOutManyAhead(ds, n, radius, k, near, x);
    }
  }

  /** Whatever comes before a selected vertex is selected too, so fewer than `k` come before it. */
  lemma SelectedFewAhead(ds: seq<real>, n: nat, radius: real, k: nat, near: seq<nat>, x: nat)
    requires n <= |ds| && x < |ds|
    requires Nearest(ds, n, radius, k, near) && x in near
    ensures |Ahead(ds, n, radius, x)| < k
  {
    var kept := set j | 0 <= j < |near| :: near[j];
    DistinctCardinality(near);
    var ahead := Ahead(ds, n, radius, x);
    var jx :| 0 <= jx < |near| && near[jx] == x;
    assert ahead <= kept - {x};
    SubsetCardinality(ahead, kept - {x});
  }

  /** Every selected vertex comes before an inside vertex left out, and then the selection is full. */
  lemma LeftOutManyAhead(ds: seq<real>, n: nat, radius: real, k: nat, near: seq<nat>, x: nat)
    requires n <= |ds| && x < n && ds[x] < radius
    requires Nearest(ds, n, radius, k, near) && x !in near
    ensures |Ahead(ds, n, radius, x)| >= k
  {
    SelectionFull(ds, n, radius, k, near, x);
    var kept := set j | 0 <= j < |near| :: near[j];
    DistinctCardinality(near);
    forall i | i in kept
      ensures i in Ahead(ds, n, radius, x)
    {
      var j :| 0 <= j < |near| && near[j] == i;
    }
    SubsetCardinality(kept, Ahead(ds, n, radius, x));
  }

  /** A selection that leaves out an inside vertex holds all `k` it may. */
  lemma SelectionFull(ds: seq<real>, n: nat, radius: real, k: nat, near: seq<nat>, x: nat)
    requires n <= |ds| && x < n && ds[x] < radius
    requires Nearest(ds, n, radius, k, near) && x !in near
    ensures |near| == k
  {
    var kept := set j | 0 <= j < |near| :: near[j];
    DistinctCardinality(near);
    var inside := InsideSet(ds, n, radius);
    assert kept <= inside - {x};
    SubsetCardinality(kept, inside - {x});
    InsideSetSize(ds, n, radius);
  }

  /**
   * The nearest selection is unique as a set: two lists that both satisfy
   * `Nearest` for the same distances hold the same vertices.
   */
  lemma NearestUnique(ds: seq<real>, n: nat, radius: real, k: nat, a: seq<nat>, b: seq<nat>)
    requires n <= |ds|
    requires Nearest(ds, n, radius, k, a) && Nearest(ds, n, radius, k, b)
    ensures forall x :: x in a <==> x in b
  {
    forall x | x in a || x in b
      ensures x in a <==> x in b
    {
      assert x < |ds| by {
        if x in a {
          var j :| 0 <= j < |a| && a[j] == x;
        } else {
          var j :| 0 <= j < |b| && b[j] == x;
        }
      }
      NearestSelects(ds, n, radius, k, a, x);
      NearestSelects(ds, n, radius, k, b, x);
    }
  }
}
