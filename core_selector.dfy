/**
 * The current `Selector` class (agent/core/view.ts): a search root and a
 * list of weighted filters that the builder methods append to, and the two
 * queries over them.
 */
module CoreSelector {
  import opened Wrappers
  import opened Nodes
  import opened Matchers
  import opened CoreFilters
  import opened Ranking
  import opened CoreTraversal
  import opened CoreProperties

  /** The `algorithm` argument of `find`. */
  datatype Algorithm = DepthFirst | BreadthFirst

  /** The candidates the chosen walk yields, in visiting order. */
  ghost function Candidates(fs: seq<Filter>, root: Node, algorithm: Algorithm): seq<Scored>
  {
    match algorithm
    case DepthFirst => DfsCandidates(fs, Preorder(root, []))
    case BreadthFirst => BfsCandidates(fs, LevelOrder(root))
  }

  class Selector {
    /** `#target`: the view whose subtree is searched. */
    const target: Node
    /** `#filters`: the filters, in the order the builder methods added them. */
    var filters: seq<Filter>

    constructor (wrapper: Node)
      ensures target == wrapper && filters == []
    {
      target := wrapper;
      filters := [];
    }

    /** `text(pattern)`. */
    method Text(pattern: Pattern) returns (self: Selector)
      modifies this
      ensures filters == old(filters) + [ByText(pattern)] && self == this
    {
      filters := filters + [ByText(pattern)];
      self := this;
    }

    /** `desc(pattern)`. */
    method Desc(pattern: Pattern) returns (self: Selector)
      modifies this
      ensures filters == old(filters) + [ByDesc(pattern)] && self == this
    {
      filters := filters + [ByDesc(pattern)];
      self := this;
    }

    /** `id(param)`. */
    method Id(param: IdParam) returns (self: Selector)
      modifies this
      ensures filters == old(filters) + [ById(param)] && self == this
    {
      filters := filters + [ById(param)];
      self := this;
    }

    /** `class(param)`. */
    method Class(param: ClassParam) returns (self: Selector)
      modifies this
      ensures filters == old(filters) + [ByClass(param)] && self == this
    {
      filters := filters + [ByClass(param)];
      self := this;
    }

    /** `boundsInside(...args)`. */
    method BoundsInside(args: BoundsArg) returns (self: Selector)
      modifies this
      ensures filters == old(filters) + [Inside(args)] && self == this
    {
      filters := filters + [Inside(args)];
      self := this;
    }

    /** `boundsContains(x, y)`. */
    method BoundsContains(x: int, y: int) returns (self: Selector)
      modifies this
      ensures filters == old(filters) + [PointIn(x, y)] && self == this
    {
      filters := filters + [PointIn(x, y)];
      self := this;
    }

    /** `filter(func)`: a custom weight function, called with the view and the depth the walk passes. */
    method Filter(func: (Node, Option<int>) -> int) returns (self: Selector)
      modifies this
      ensures filters == old(filters) + [Custom(func)] && self == this
    {
      filters := filters + [Custom(func)];
      self := this;
    }

    /**
     * `find(algorithm)`: null when the walk yields no candidate; otherwise,
     * after the stable sort by descending weight, the first view, which is
     * the first candidate in visiting order of greatest weight.
     */
    method Find(algorithm: Algorithm) returns (r: Option<Node>)
      ensures r.None? <==> |Candidates(filters, target, algorithm)| == 0
      ensures r == Best(Candidates(filters, target, algorithm))
    {
      var result: seq<Scored>;
      if algorithm == DepthFirst {
        result := Dfs(filters, target, 1, []);
      } else {
        result := Bfs(filters, target);
      }
      if |result| == 0 {
        return None;
      }
      var sorted := SortDesc(result);
      SortDescHead(result);
      return Some(sorted[0].node);
    }

    /** `findAll()`: the views that pass every filter called without a depth, in pre-order. */
    method FindAll() returns (r: seq<Node>)
      ensures r == Matching(filters, Preorder(target, []))
    {
      r := FindAllFrom(filters, target, []);
    }
  }

  /**
   * The view `find` returns is a candidate of greatest weight, and every
   * candidate visited before it weighs strictly less.
   */
  lemma BestIsFirstMaximum(c: seq<Scored>)
    ensures Best(c).None? <==> |c| == 0
    ensures Best(c).Some? ==>
              exists k :: 0 <= k < |c| && Best(c).value == c[k].node &&
                          (forall j :: 0 <= j < |c| ==> c[j].weight <= c[k].weight) &&
                          (forall j :: 0 <= j < k ==> c[j].weight < c[k].weight)
  {
    if |c| > 0 {
      var k := FirstMaxIndex(c);
      assert Best(c).value == c[k].node;
    }
  }

  /**
   * A filter that weighs every view 0 makes `find` return null under both
   * walks and `findAll` return nothing, whatever the other filters are.
   */
  lemma ZeroFilterFindsNothing(fs: seq<Filter>, f: Filter, root: Node, algorithm: Algorithm)
    requires f in fs && AlwaysZero(f)
    ensures Candidates(fs, root, algorithm) == []
    ensures Best(Candidates(fs, root, algorithm)) == None
    ensures Matching(fs, Preorder(root, [])) == []
  {
    ZeroFilterDfs(fs, f, Preorder(root, []));
    ZeroFilterBfs(fs, f, LevelOrder(root));
    ZeroFilterFindAll(fs, f, Preorder(root, []));
  }
}
