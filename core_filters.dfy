/**
 * The weighted filters of the current selector (agent/core/view.ts): each
 * maps a view and an optional traversal depth to a weight, 0 meaning
 * "rejected".  Weights are integers; JavaScript's floating-point weights
 * (and NaN) are not modelled.
 */
module CoreFilters {
  import opened Wrappers
  import opened Nodes
  import opened Matchers

  /** The arguments of `boundsInside(...)`: one rectangle, or its four edges. */
  datatype BoundsArg = OneRect(r: Rect) | FourNumbers(left: int, top: int, right: int, bottom: int)

  /** The rectangle `boundsInside` compares against, after unwrapping its argument. */
  function ArgRect(a: BoundsArg): Rect
  {
    match a
    case OneRect(r) => r
    case FourNumbers(l, t, r, b) => Rect(l, t, r, b)
  }

  /** One entry of the selector's filter list, named after the builder that pushes it. */
  datatype Filter =
    | ByText(p: Pattern)
    | ByDesc(p: Pattern)
    | ById(param: IdParam)
    | ByClass(c: ClassParam)
    | Inside(arg: BoundsArg)
    | PointIn(x: int, y: int)
    | Custom(f: (Node, Option<int>) -> int)

  /** JavaScript's `Number(b)`. */
  function Indicator(b: bool): int
  {
    if b then 1 else 0
  }

  /**
   * The weight one filter gives a view.  `depth` is the traversal depth the
   * filter is called with, `None` when it is called with the view alone.
   */
  function Weight(f: Filter, n: Node, depth: Option<int>): (w: int)
    ensures !f.PointIn? && !f.Custom? ==> w == 0 || w == 1
    ensures f.PointIn? ==> (w != 0 <==> depth.Some? && depth.value != 0 && ContainsPoint(n.bounds, f.x, f.y))
  {
    match f
    case ByText(p) => Indicator(TextMatches(p, n.text))
    case ByDesc(p) => Indicator(DescMatches(p, n))
    case ById(param) => Indicator(IdMatches(param, n))
    case ByClass(c) => Indicator(ClassMatches(c, n))
    case Inside(arg) => Indicator(Encloses(ArgRect(arg), n.bounds))
    case PointIn(x, y) => if ContainsPoint(n.bounds, x, y) then depth.GetOr(0) else 0
    case Custom(func) => func(n, depth)
  }

  /** The product of the weights of all filters: the combined weight of a view. */
  function Product(fs: seq<Filter>, n: Node, depth: Option<int>): int
  {
    if |fs| == 0 then 1 else Weight(fs[0], n, depth) * Product(fs[1..], n, depth)
  }

  /**
   * `fs.every(func => weight *= func(view, depth))`, starting from `weight`:
   * stops at the first filter that makes the running product zero, and
   * yields whether it ran to the end and the last running product.
   */
  function Every(fs: seq<Filter>, n: Node, depth: Option<int>, weight: int): (r: (bool, int))
    ensures !r.0 ==> r.1 == 0
    ensures |fs| > 0 ==> (r.0 <==> r.1 != 0)
  {
    if |fs| == 0 then (true, weight)
    else
      var w := weight * Weight(fs[0], n, depth);
      if w == 0 then (false, w) else Every(fs[1..], n, depth, w)
  }

  /**
   * `fs.every(func => func(view))`: every filter, called in order at
   * `depth`, gives a non-zero weight.  `findAll` passes no depth (`None`).
   */
  predicate AllNonZero(fs: seq<Filter>, n: Node, depth: Option<int>)
  {
    |fs| == 0 || (Weight(fs[0], n, depth) != 0 && AllNonZero(fs[1..], n, depth))
  }

  /** `AllNonZero` says what its name says. */
  lemma {:induction false} AllNonZeroIff(fs: seq<Filter>, n: Node, depth: Option<int>)
    ensures AllNonZero(fs, n, depth) <==> forall i :: 0 <= i < |fs| ==> Weight(fs[i], n, depth) != 0
  {
    if |fs| > 0 {
      AllNonZeroIff(fs[1..], n, depth);
      assert forall i :: 1 <= i < |fs| ==> fs[i] == fs[1..][i - 1];
    }
  }

  /** A product of weights is non-zero exactly when no weight is zero. */
  lemma {:induction false} ProductNonZero(fs: seq<Filter>, n: Node, depth: Option<int>)
    ensures Product(fs, n, depth) != 0 <==> AllNonZero(fs, n, depth)
  {
    if |fs| > 0 {
      ProductNonZero(fs[1..], n, depth);
    }
  }

  /**
   * Stopping at the first zero changes nothing: `every` succeeds exactly
   * when the full product is non-zero, and its running weight ends as that
   * product (times the starting weight).
   */
  lemma {:induction false} EveryIsProduct(fs: seq<Filter>, n: Node, depth: Option<int>, weight: int)
    requires weight != 0
    ensures Every(fs, n, depth, weight).0 <==> weight * Product(fs, n, depth) != 0
    ensures Every(fs, n, depth, weight).1 == weight * Product(fs, n, depth)
  {
    if |fs| > 0 {
      var a := Weight(fs[0], n, depth);
      var p := Product(fs[1..], n, depth);
      MulFacts(weight, a, p);
      if weight * a != 0 {
        EveryIsProduct(fs[1..], n, depth, weight * a);
      }
    }
  }

  /** The two facts about integer products that `EveryIsProduct` needs. */
  lemma MulFacts(w: int, a: int, p: int)
    ensures w * a == 0 <==> w == 0 || a == 0
    ensures (w * a) * p == w * (a * p)
  {
  }

  /**
   * The acceptance rule of the traversals: a view is a candidate iff every
   * filter gives it a non-zero weight, and its recorded weight is the product.
   */
  lemma Acceptance(fs: seq<Filter>, n: Node, depth: Option<int>)
    ensures Every(fs, n, depth, 1).0 <==> forall i :: 0 <= i < |fs| ==> Weight(fs[i], n, depth) != 0
    ensures Every(fs, n, depth, 1).0 <==> AllNonZero(fs, n, depth)
    ensures Every(fs, n, depth, 1).1 == Product(fs, n, depth)
  {
    EveryIsProduct(fs, n, depth, 1);
    ProductNonZero(fs, n, depth);
    AllNonZeroIff(fs, n, depth);
  }

  /**
   * `boundsContains(x, y)` gives 0 outside the bounds (edges inclusive) and
   * otherwise the depth it is called with, or 0 without one (`depth ?? 0`).
   */
  lemma PointInWeight(x: int, y: int, n: Node, depth: Option<int>)
    ensures !ContainsPoint(n.bounds, x, y) ==> Weight(PointIn(x, y), n, depth) == 0
    ensures depth.None? ==> Weight(PointIn(x, y), n, depth) == 0
    ensures depth.Some? && ContainsPoint(n.bounds, x, y) ==> Weight(PointIn(x, y), n, depth) == depth.value
  {
  }

  /** The four-number form of `boundsInside` behaves exactly like the single-rectangle form. */
  lemma FourNumbersLikeOneRect(l: int, t: int, r: int, b: int, n: Node, depth: Option<int>)
    ensures Weight(Inside(FourNumbers(l, t, r, b)), n, depth) == Weight(Inside(OneRect(Rect(l, t, r, b))), n, depth)
    ensures Weight(Inside(OneRect(Rect(l, t, r, b))), n, depth) == Indicator(l <= n.bounds.left && t <= n.bounds.top && r >= n.bounds.right && b >= n.bounds.bottom)
  {
  }

  /** A filter whose weight never depends on the depth it is given. */
  ghost predicate DepthBlind(f: Filter)
  {
    forall n: Node, d: int :: Weight(f, n, Some(d)) == Weight(f, n, None)
  }

  /**
   * Every built-in filter except `boundsContains` ignores the depth and
   * gives 0 or 1.
   */
  lemma BuiltinsIgnoreDepth(f: Filter, n: Node, d: Option<int>)
    requires !f.PointIn? && !f.Custom?
    ensures Weight(f, n, d) == Weight(f, n, None)
    ensures Weight(f, n, d) == 0 || Weight(f, n, d) == 1
  {
  }
}
