/**
 * A fixed snapshot of the Android view tree the selector walks, and the
 * read-only accessors of `ViewWrapper` over it.  Every node is a value:
 * the live, concurrently mutated tree of the target process is not modelled.
 */
module Nodes {
  import opened Wrappers

  /** `View.NO_ID`: the id of a view that was never given one. */
  const NO_ID: int := -1

  /** A screen-space rectangle with integer edges, as `Rect` and `getBoundsOnScreen` give it. */
  datatype Rect = Rect(left: int, top: int, right: int, bottom: int)

  /** Whether a view is a `ViewGroup` and, if it is, its children in child order. */
  datatype Kids = NotGroup | Group(items: seq<Node>)

  /**
   * One view.  `text` is present only for a `TextView`; `desc` is the
   * content description; `id` is `View.getId()`; `idHasPackage` is what
   * `Resources.resourceHasPackage(id)` answers; `resEntry` is `None` when the
   * view's `mResources` is null and otherwise the entry name the resource
   * table gives for `id`; `className` is the runtime class name.
   */
  datatype Node = Node(
    text: Option<string>,
    desc: Option<string>,
    id: int,
    idHasPackage: bool,
    resEntry: Option<string>,
    className: string,
    bounds: Rect,
    kids: Kids)

  /** `ViewWrapper.children`: null for a view that is not a `ViewGroup`. */
  function Children(n: Node): (r: Option<seq<Node>>)
    ensures r.None? <==> n.kids.NotGroup?
    ensures r.Some? ==> r.value == n.kids.items
  {
    match n.kids
    case NotGroup => None
    case Group(cs) => Some(cs)
  }

  /** `ViewGroup.getChildCount()`. */
  function ChildCount(n: Node): (k: nat)
    requires n.kids.Group?
    ensures Children(n).Some? && k == |Children(n).value|
  {
    |n.kids.items|
  }

  /** `ViewGroup.getChildAt(i)`. */
  function ChildAt(n: Node, i: nat): (c: Node)
    requires n.kids.Group? && i < ChildCount(n)
    ensures c == Children(n).value[i]
  {
    n.kids.items[i]
  }

  /**
   * The `children` getter as the source runs it: a type test, then one
   * `getChildAt` per index below `getChildCount`, pushed in order.
   */
  method GetChildren(n: Node) returns (r: Option<seq<Node>>)
    ensures r == Children(n)
    ensures r.Some? ==> |r.value| == ChildCount(n)
    ensures r.Some? ==> forall i :: 0 <= i < |r.value| ==> r.value[i] == ChildAt(n, i)
  {
    if n.kids.NotGroup? {
      return None;
    }
    var result: seq<Node> := [];
    var length := ChildCount(n);
    for i := 0 to length
      invariant result == n.kids.items[..i]
    {
      result := result + [ChildAt(n, i)];
    }
    assert n.kids.items[..length] == n.kids.items;
    return Some(result);
  }

  /**
   * `ViewWrapper.id`: the resource entry name of the view's id, or null.
   * A name is given only for a positive id whose package is known, on a
   * view with a resource table.
   */
  function IdName(n: Node): (r: Option<string>)
    ensures n.id == NO_ID ==> r.None?
    ensures r.Some? <==> n.id > 0 && n.idHasPackage && n.resEntry.Some?
    ensures r.Some? ==> r == n.resEntry
  {
    if n.id == NO_ID then None
    else if n.id > 0 && n.idHasPackage && n.resEntry.Some? then n.resEntry
    else None
  }

  /** The number of views in the subtree rooted at `n`. */
  function Size(n: Node): (r: nat)
    ensures r >= 1
  {
    1 + match n.kids
        case NotGroup => 0
        case Group(cs) => SizeKids(cs)
  }

  function SizeKids(cs: seq<Node>): nat
  {
    if |cs| == 0 then 0 else SizeKids(cs[..|cs| - 1]) + Size(cs[|cs| - 1])
  }

  /** A view together with its child-index path from the search root. */
  datatype Visit = Visit(path: seq<nat>, node: Node)

  /**
   * The views of the subtree in pre-order (a view before its children,
   * children in child order), each with its path; `path` is the path of `n`.
   */
  function Preorder(n: Node, path: seq<nat>): seq<Visit>
  {
    [Visit(path, n)] + match n.kids
                       case NotGroup => []
                       case Group(cs) => PreorderKids(cs, path)
  }

  /** The pre-orders of the children `cs` of the view at `path`, concatenated. */
  function PreorderKids(cs: seq<Node>, path: seq<nat>): seq<Visit>
  {
    if |cs| == 0 then []
    else PreorderKids(cs[..|cs| - 1], path) + Preorder(cs[|cs| - 1], path + [|cs| - 1])
  }

  /** One more child of a `for` loop over the children: its pre-order comes next. */
  lemma PreorderKidsSnoc(cs: seq<Node>, i: nat, path: seq<nat>)
    requires i < |cs|
    ensures PreorderKids(cs[..i + 1], path) == PreorderKids(cs[..i], path) + Preorder(cs[i], path + [i])
  {
    assert cs[..i + 1][..i] == cs[..i];
  }

  /** The view that a child-index path leads to from `n`, if any. */
  function At(n: Node, path: seq<nat>): Option<Node>
  {
    if path == [] then Some(n)
    else match n.kids
         case NotGroup => None
         case Group(cs) => if path[0] < |cs| then At(cs[path[0]], path[1..]) else None
  }

  /** The views of a list of visits, in order. */
  function NodesOf(vs: seq<Visit>): (r: seq<Node>)
    ensures |r| == |vs| && forall i :: 0 <= i < |vs| ==> r[i] == vs[i].node
  {
    if |vs| == 0 then [] else NodesOf(vs[..|vs| - 1]) + [vs[|vs| - 1].node]
  }

  /** A pre-order visits every view of the subtree once, the root first, with its own path. */
  lemma {:induction false} PreorderShape(n: Node, path: seq<nat>)
    ensures |Preorder(n, path)| == Size(n)
    ensures Preorder(n, path)[0] == Visit(path, n)
    decreases n, 1
  {
    match n.kids
    case NotGroup =>
    case Group(cs) => PreorderKidsSize(cs, path);
  }

  lemma {:induction false} PreorderKidsSize(cs: seq<Node>, path: seq<nat>)
    ensures |PreorderKids(cs, path)| == SizeKids(cs)
    decreases cs, 0
  {
    if |cs| > 0 {
      PreorderKidsSize(cs[..|cs| - 1], path);
      PreorderShape(cs[|cs| - 1], path + [|cs| - 1]);
    }
  }

  /**
   * Every visit of a pre-order carries a path that extends the root's path
   * and leads, from the root, to exactly the view visited.
   */
  lemma {:induction false} PreorderAddresses(n: Node, path: seq<nat>, v: Visit)
    requires v in Preorder(n, path)
    ensures |path| <= |v.path| && v.path[..|path|] == path
    ensures At(n, v.path[|path|..]) == Some(v.node)
    decreases n, 1
  {
    if v != Visit(path, n) {
      var cs := n.kids.items;
      PreorderKidsAddresses(cs, path, v);
      var k := v.path[|path|];
      assert v.path[|path|..][1..] == v.path[|path| + 1..];
    }
  }

  lemma {:induction false} PreorderKidsAddresses(cs: seq<Node>, path: seq<nat>, v: Visit)
    requires v in PreorderKids(cs, path)
    ensures |path| < |v.path| && v.path[..|path|] == path
    ensures v.path[|path|] < |cs| && At(cs[v.path[|path|]], v.path[|path| + 1..]) == Some(v.node)
    decreases cs, 0
  {
    var m := |cs| - 1;
    var init := cs[..m];
    if v in PreorderKids(init, path) {
      PreorderKidsAddresses(init, path, v);
    } else {
      var p := path + [m];
      PreorderAddresses(cs[m], p, v);
      assert v.path[..|path|] == v.path[..|p|][..|path|];
      assert v.path[|path|] == v.path[..|p|][|path|];
      assert v.path[|path| + 1..] == v.path[|p|..];
    }
  }

  /** `NodesOf` distributes over concatenation. */
  lemma NodesOfAppend(a: seq<Visit>, b: seq<Visit>)
    ensures NodesOf(a + b) == NodesOf(a) + NodesOf(b)
  {
  }

  /** A task of the breadth-first queue: a view and its depth (the root has depth 1). */
  datatype Task = Task(node: Node, depth: int)

  /**
   * The views of the subtree in pre-order with the depth of each, `n` at
   * depth `d`; a reference definition of "the depth of a view".
   */
  function Levels(n: Node, d: int): seq<Task>
  {
    [Task(n, d)] + match n.kids
                   case NotGroup => []
                   case Group(cs) => LevelsKids(cs, d + 1)
  }

  function LevelsKids(cs: seq<Node>, d: int): seq<Task>
  {
    if |cs| == 0 then [] else LevelsKids(cs[..|cs| - 1], d) + Levels(cs[|cs| - 1], d)
  }

  /** A visit's depth is one more than the length of its path. */
  function DepthsOf(vs: seq<Visit>): (r: seq<Task>)
    ensures |r| == |vs|
    ensures forall i :: 0 <= i < |vs| ==> r[i] == Task(vs[i].node, |vs[i].path| + 1)
  {
    if |vs| == 0 then [] else DepthsOf(vs[..|vs| - 1]) + [Task(vs[|vs| - 1].node, |vs[|vs| - 1].path| + 1)]
  }

  lemma DepthsOfAppend(a: seq<Visit>, b: seq<Visit>)
    ensures DepthsOf(a + b) == DepthsOf(a) + DepthsOf(b)
  {
  }

  /** The pre-order with paths and the pre-order with depths agree: depth is path length + 1. */
  lemma {:induction false} PreorderDepths(n: Node, path: seq<nat>)
    ensures DepthsOf(Preorder(n, path)) == Levels(n, |path| + 1)
    decreases n, 1
  {
    match n.kids
    case NotGroup =>
      assert DepthsOf(Preorder(n, path)) == [Task(n, |path| + 1)];
    case Group(cs) =>
      PreorderKidsDepths(cs, path);
      DepthsOfAppend([Visit(path, n)], PreorderKids(cs, path));
  }

  lemma {:induction false} PreorderKidsDepths(cs: seq<Node>, path: seq<nat>)
    ensures DepthsOf(PreorderKids(cs, path)) == LevelsKids(cs, |path| + 2)
    decreases cs, 0
  {
    if |cs| > 0 {
      var m := |cs| - 1;
      PreorderKidsDepths(cs[..m], path);
      PreorderDepths(cs[m], path + [m]);
      DepthsOfAppend(PreorderKids(cs[..m], path), Preorder(cs[m], path + [m]));
    }
  }
}
