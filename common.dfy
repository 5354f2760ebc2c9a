/** Small value types shared by the planner and user-interface models. */
module Common {

  /** Python's `None`-or-value, JavaScript's `undefined`-or-value. */
  datatype Option<+T> = None | Some(value: T)

  /** A regular expression's `\w` without the `u` flag: ASCII letters, digits and underscore. */
  predicate IsWordChar(c: char)
  {
    ('a' <= c <= 'z') || ('A' <= c <= 'Z') || ('0' <= c <= '9') || c == '_'
  }

  /** A two-dimensional point or vector, as the planners' numpy arrays `[x, y]`. */
  datatype Vec = Vec(x: real, y: real)

  /** A path cost as the planners keep it: a finite float or `float('inf')`. */
  datatype Cost = Fin(amount: real) | Inf

  /** `cost + d` for a finite distance `d`: infinity absorbs it. */
  function AddDist(c: Cost, d: real): (r: Cost)
    ensures r.Inf? <==> c.Inf?
    ensures c.Fin? ==> r.amount - c.amount == d
  {
    match c
    case Fin(a) => Fin(a + d)
    case Inf => Inf
  }

  /** Python's `<` on costs: every finite cost is below `inf`, and `inf` is below nothing. */
  predicate Less(a: Cost, b: Cost)
  {
    match (a, b)
    case (Fin(x), Fin(y)) => x < y
    case (Fin(_), Inf) => true
    case (Inf, _) => false
  }

  lemma LessIrreflexiveTransitive(a: Cost, b: Cost, c: Cost)
    ensures !Less(a, a)
    ensures Less(a, b) && Less(b, c) ==> Less(a, c)
    ensures Less(a, b) ==> !Less(b, a)
  {
  }

  /** A cost reached by adding a non-negative distance is never below the cost it started from. */
  lemma AddDistNotLess(c: Cost, d: real)
    requires d >= 0.0
    ensures !Less(AddDist(c, d), c)
  {
  }
}
