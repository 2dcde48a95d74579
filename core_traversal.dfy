/**
 * The three walks of the current `Selector` (agent/core/view.ts): the
 * recursive depth-first walk of `find('dfs')`, the queue-driven
 * breadth-first walk of `find('bfs')` and the depth-first collection of
 * `findAll()`.  Each is a method, proved equal to a reference definition
 * over the pre-order or the level order of the tree.
 */
module CoreTraversal {
  import opened Wrappers
  import opened Nodes
  import opened CoreFilters
  import opened Ranking

  // ---------------------------------------------------------------------
  // Reference definitions of the candidates
  // ---------------------------------------------------------------------

  /** Every filter gives the view a non-zero weight. */
  ghost predicate AllPass(fs: seq<Filter>, n: Node, depth: Option<int>)
  {
    forall i :: 0 <= i < |fs| ==> Weight(fs[i], n, depth) != 0
  }

  /** The entry a view contributes: itself with its combined weight when it passes every filter. */
  ghost function Candidate(fs: seq<Filter>, n: Node, depth: Option<int>): seq<Scored>
  {
    if AllPass(fs, n, depth) then [Scored(Product(fs, n, depth), n)] else []
  }

  /** The depth-first candidates: each view evaluated at depth (path length + 1). */
  ghost function DfsCandidates(fs: seq<Filter>, vs: seq<Visit>): seq<Scored>
  {
    if |vs| == 0 then []
    else
      var v := vs[|vs| - 1];
      DfsCandidates(fs, vs[..|vs| - 1]) + Candidate(fs, v.node, Some(|v.path| + 1))
  }

  /** The breadth-first candidates: each view evaluated without a depth. */
  ghost function BfsCandidates(fs: seq<Filter>, ts: seq<Task>): seq<Scored>
  {
    if |ts| == 0 then []
    else BfsCandidates(fs, ts[..|ts| - 1]) + Candidate(fs, ts[|ts| - 1].node, None)
  }

  /** The views `findAll` keeps: those that pass every filter called without a depth. */
  ghost function Matching(fs: seq<Filter>, vs: seq<Visit>): seq<Node>
  {
    if |vs| == 0 then []
    else
      var n := vs[|vs| - 1].node;
      Matching(fs, vs[..|vs| - 1]) + (if AllPass(fs, n, None) then [n] else [])
  }

  /** The views of a result list, in order. */
  function ScoredNodes(s: seq<Scored>): (r: seq<Node>)
    ensures |r| == |s| && forall i :: 0 <= i < |s| ==> r[i] == s[i].node
  {
    if |s| == 0 then [] else ScoredNodes(s[..|s| - 1]) + [s[|s| - 1].node]
  }

  /** What `find` returns for a candidate list: null when empty, else the first entry of greatest weight. */
  function Best(c: seq<Scored>): Option<Node>
  {
    if |c| == 0 then None else Some(c[FirstMaxIndex(c)].node)
  }

  lemma DfsCandidatesAppend(fs: seq<Filter>, a: seq<Visit>, b: seq<Visit>)
    ensures DfsCandidates(fs, a + b) == DfsCandidates(fs, a) + DfsCandidates(fs, b)
    decreases |b|
  {
    if |b| > 0 {
      assert (a + b)[..|a + b| - 1] == a + b[..|b| - 1];
      assert (a + b)[|a + b| - 1] == b[|b| - 1];
      DfsCandidatesAppend(fs, a, b[..|b| - 1]);
    } else {
      assert a + b == a;
    }
  }

  lemma MatchingAppend(fs: seq<Filter>, a: seq<Visit>, b: seq<Visit>)
    ensures Matching(fs, a + b) == Matching(fs, a) + Matching(fs, b)
    decreases |b|
  {
    if |b| > 0 {
      assert (a + b)[..|a + b| - 1] == a + b[..|b| - 1];
      assert (a + b)[|a + b| - 1] == b[|b| - 1];
      MatchingAppend(fs, a, b[..|b| - 1]);
    } else {
      assert a + b == a;
    }
  }

  /** The source's `every` loop decides exactly what the reference definition says. */
  lemma EveryDecides(fs: seq<Filter>, n: Node, depth: Option<int>)
    ensures (if Every(fs, n, depth, 1).0 then [Scored(Every(fs, n, depth, 1).1, n)] else []) == Candidate(fs, n, depth)
    ensures AllNonZero(fs, n, depth) <==> AllPass(fs, n, depth)
  {
    Acceptance(fs, n, depth);
  }

  // ---------------------------------------------------------------------
  // find('dfs')
  // ---------------------------------------------------------------------

  /**
   * The inner `dfs(view, depth)` of `find`: evaluates `view` at `depth`,
   * then recurses into the children at `depth + 1`, concatenating results.
   * `path` is the view's child-index path, used only in the specification.
   */
  method Dfs(fs: seq<Filter>, view: Node, depth: int, ghost path: seq<nat>) returns (result: seq<Scored>)
    requires depth == |path| + 1
    ensures result == DfsCandidates(fs, Preorder(view, path))
    decreases view, 1
  {
    var e := Every(fs, view, Some(depth), 1);
    result := if e.0 then [Scored(e.1, view)] else [];
    DfsHere(fs, view, path);
    var children := GetChildren(view);
    PreorderOfGroup(view, path);
    if children.Some? {
      var sub := DfsChildren(fs, children.value, depth + 1, path);
      DfsCandidatesAppend(fs, [Visit(path, view)], PreorderKids(view.kids.items, path));
      result := result + sub;
    }
  }

  /** The `for` loop of `dfs` over the children `cs` of the view at `path`, one level deeper. */
  method DfsChildren(fs: seq<Filter>, cs: seq<Node>, depth: int, ghost path: seq<nat>) returns (result: seq<Scored>)
    requires depth == |path| + 2
    ensures result == DfsCandidates(fs, PreorderKids(cs, path))
    decreases cs, 0
  {
    result := [];
    for i := 0 to |cs|
      invariant result == DfsCandidates(fs, PreorderKids(cs[..i], path))
    {
      var sub := Dfs(fs, cs[i], depth, path + [i]);
      DfsKidsStep(fs, cs, i, path);
      result := result + sub;
    }
    assert cs[..|cs|] == cs;
  }

  /** What the first lines of `dfs` contribute for the view itself. */
  lemma DfsHere(fs: seq<Filter>, view: Node, path: seq<nat>)
    ensures (if Every(fs, view, Some(|path| + 1), 1).0 then [Scored(Every(fs, view, Some(|path| + 1), 1).1, view)] else [])
            == DfsCandidates(fs, [Visit(path, view)])
  {
    EveryDecides(fs, view, Some(|path| + 1));
    assert [Visit(path, view)][..0] == [];
  }

  /** A view's pre-order: itself, then the pre-orders of its children, if it has any. */
  lemma PreorderOfGroup(view: Node, path: seq<nat>)
    ensures view.kids.NotGroup? ==> Preorder(view, path) == [Visit(path, view)]
    ensures view.kids.Group? ==> Preorder(view, path) == [Visit(path, view)] + PreorderKids(view.kids.items, path)
  {
  }

  /** One more child of the `for` loop of `dfs`: its candidates come next. */
  lemma DfsKidsStep(fs: seq<Filter>, cs: seq<Node>, i: nat, path: seq<nat>)
    requires i < |cs|
    ensures DfsCandidates(fs, PreorderKids(cs[..i + 1], path))
            == DfsCandidates(fs, PreorderKids(cs[..i], path)) + DfsCandidates(fs, Preorder(cs[i], path + [i]))
  {
    PreorderKidsSnoc(cs, i, path);
    DfsCandidatesAppend(fs, PreorderKids(cs[..i], path), Preorder(cs[i], path + [i]));
  }

  // ---------------------------------------------------------------------
  // find('bfs')
  // ---------------------------------------------------------------------

  /** `children.map(item => [item, depth])`. */
  function TasksAt(cs: seq<Node>, d: int): (r: seq<Task>)
    ensures |r| == |cs| && forall i :: 0 <= i < |cs| ==> r[i] == Task(cs[i], d)
  {
    seq(|cs|, i requires 0 <= i < |cs| => Task(cs[i], d))
  }

  /** The tasks a visited task pushes: its children, one level deeper. */
  function KidTasks(t: Task): seq<Task>
  {
    match t.node.kids
    case NotGroup => []
    case Group(cs) => TasksAt(cs, t.depth + 1)
  }

  /** The number of views still to be visited from a queue. */
  function QueueSize(q: seq<Task>): nat
  {
    if |q| == 0 then 0 else QueueSize(q[..|q| - 1]) + Size(q[|q| - 1].node)
  }

  lemma QueueSizeAppend(a: seq<Task>, b: seq<Task>)
    ensures QueueSize(a + b) == QueueSize(a) + QueueSize(b)
    decreases |b|
  {
    if |b| > 0 {
      assert (a + b)[..|a + b| - 1] == a + b[..|b| - 1];
      assert (a + b)[|a + b| - 1] == b[|b| - 1];
      QueueSizeAppend(a, b[..|b| - 1]);
    } else {
      assert a + b == a;
    }
  }

  lemma {:induction false} QueueSizeTasks(cs: seq<Node>, d: int)
    ensures QueueSize(TasksAt(cs, d)) == SizeKids(cs)
  {
    if |cs| > 0 {
      assert TasksAt(cs, d)[..|cs| - 1] == TasksAt(cs[..|cs| - 1], d);
      QueueSizeTasks(cs[..|cs| - 1], d);
    }
  }

  /** Visiting the head of a queue leaves fewer views to visit. */
  lemma BfsStepShrinks(q: seq<Task>)
    requires |q| > 0
    ensures QueueSize(q[1..] + KidTasks(q[0])) < QueueSize(q)
  {
    assert q == [q[0]] + q[1..];
    QueueSizeAppend([q[0]], q[1..]);
    QueueSizeAppend(q[1..], KidTasks(q[0]));
    assert QueueSize([q[0]]) == Size(q[0].node);
    match q[0].node.kids
    case NotGroup =>
    case Group(cs) => QueueSizeTasks(cs, q[0].depth + 1);
  }

  /** The order in which the queue loop takes its tasks, from queue `q`. */
  function BfsRun(q: seq<Task>): seq<Task>
    decreases QueueSize(q)
  {
    if |q| == 0 then []
    else
      BfsStepShrinks(q);
      [q[0]] + BfsRun(q[1..] + KidTasks(q[0]))
  }

  /** The views of the tree in the order `bfs` visits them, each with its queue depth. */
  function LevelOrder(root: Node): seq<Task>
  {
    BfsRun([Task(root, 1)])
  }

  /**
   * The inner `bfs(root)` of `find`: a queue `task` with a head index,
   * visiting and evaluating (without a depth) one task per iteration and
   * pushing its children one level deeper.
   */
  method Bfs(fs: seq<Filter>, root: Node) returns (result: seq<Scored>)
    ensures result == BfsCandidates(fs, LevelOrder(root))
  {
    result := [];
    var task: seq<Task> := [Task(root, 1)];
    var head := 0;
    while head < |task|
      invariant 0 <= head <= |task|
      invariant task[..head] + BfsRun(task[head..]) == LevelOrder(root)
      invariant result == BfsCandidates(fs, task[..head])
      decreases QueueSize(task[head..])
    {
      var t := task[head];
      var e := Every(fs, t.node, None, 1);
      EveryDecides(fs, t.node, None);
      if e.0 {
        result := result + [Scored(e.1, t.node)];
      }
      var children := GetChildren(t.node);
      var kids: seq<Task> := [];
      if children.Some? {
        kids := TasksAt(children.value, t.depth + 1);
      }
      assert kids == KidTasks(t);
      QueueAdvance(fs, task, head, kids);
      task := task + kids;
      head := head + 1;
    }
    assert task[..head] + [] == task[..head];
  }

  /**
   * One iteration of the queue loop: the taken task moves from the queue to
   * the visited prefix, and its children join the end of the queue.
   */
  lemma QueueAdvance(fs: seq<Filter>, task: seq<Task>, head: nat, kids: seq<Task>)
    requires head < |task| && kids == KidTasks(task[head])
    ensures (task + kids)[..head + 1] + BfsRun((task + kids)[head + 1..]) == task[..head] + BfsRun(task[head..])
    ensures BfsCandidates(fs, (task + kids)[..head + 1])
            == BfsCandidates(fs, task[..head]) + Candidate(fs, task[head].node, None)
    ensures QueueSize((task + kids)[head + 1..]) < QueueSize(task[head..])
  {
    var q := task[head..];
    QueueSlices(task, head, kids);
    QueueRunStep(q, task[head], kids);
    ConcatAssoc(task[..head], [task[head]], BfsRun(q[1..] + kids));
    BfsCandidatesSnoc(fs, task[..head], task[head]);
  }

  /** The visited part and the queue after a push and a step of the head. */
  lemma QueueSlices(task: seq<Task>, head: nat, kids: seq<Task>)
    requires head < |task|
    ensures (task + kids)[..head + 1] == task[..head] + [task[head]]
    ensures (task + kids)[head + 1..] == task[head..][1..] + kids
  {
  }

  lemma ConcatAssoc(a: seq<Task>, b: seq<Task>, c: seq<Task>)
    ensures (a + b) + c == a + (b + c)
  {
  }

  /** One more visited task: its candidate comes last. */
  lemma BfsCandidatesSnoc(fs: seq<Filter>, a: seq<Task>, t: Task)
    ensures BfsCandidates(fs, a + [t]) == BfsCandidates(fs, a) + Candidate(fs, t.node, None)
  {
    assert (a + [t])[..|a|] == a;
  }

  /** The loop takes the head of the queue, then continues on the rest with the children behind it. */
  lemma QueueRunStep(q: seq<Task>, t: Task, kids: seq<Task>)
    requires |q| > 0 && q[0] == t && kids == KidTasks(t)
    ensures BfsRun(q) == [t] + BfsRun(q[1..] + kids)
    ensures QueueSize(q[1..] + kids) < QueueSize(q)
  {
    BfsStepShrinks(q);
  }

  // ---------------------------------------------------------------------
  // findAll()
  // ---------------------------------------------------------------------

  /**
   * The inner `inner(view)` of `findAll`: keeps `view` when every filter,
   * called without a depth, is non-zero, then recurses into the children.
   */
  method FindAllFrom(fs: seq<Filter>, view: Node, ghost path: seq<nat>) returns (result: seq<Node>)
    ensures result == Matching(fs, Preorder(view, path))
    decreases view, 1
  {
    result := if AllNonZero(fs, view, None) then [view] else [];
    MatchingHere(fs, view, path);
    var children := GetChildren(view);
    PreorderOfGroup(view, path);
    if children.Some? {
      var sub := FindAllChildren(fs, children.value, path);
      MatchingAppend(fs, [Visit(path, view)], PreorderKids(view.kids.items, path));
      result := result + sub;
    }
  }

  /** The `for` loop of `inner` over the children `cs` of the view at `path`. */
  method FindAllChildren(fs: seq<Filter>, cs: seq<Node>, ghost path: seq<nat>) returns (result: seq<Node>)
    ensures result == Matching(fs, PreorderKids(cs, path))
    decreases cs, 0
  {
    result := [];
    for i := 0 to |cs|
      invariant result == Matching(fs, PreorderKids(cs[..i], path))
    {
      var sub := FindAllFrom(fs, cs[i], path + [i]);
      MatchingKidsStep(fs, cs, i, path);
      result := result + sub;
    }
    assert cs[..|cs|] == cs;
  }

  /** What the first lines of `inner` contribute for the view itself. */
  lemma MatchingHere(fs: seq<Filter>, view: Node, path: seq<nat>)
    ensures (if AllNonZero(fs, view, None) then [view] else []) == Matching(fs, [Visit(path, view)])
  {
    EveryDecides(fs, view, None);
    assert [Visit(path, view)][..0] == [];
  }

  /** One more child of the `for` loop of `inner`: its matches come next. */
  lemma MatchingKidsStep(fs: seq<Filter>, cs: seq<Node>, i: nat, path: seq<nat>)
    requires i < |cs|
    ensures Matching(fs, PreorderKids(cs[..i + 1], path))
            == Matching(fs, PreorderKids(cs[..i], path)) + Matching(fs, Preorder(cs[i], path + [i]))
  {
    PreorderKidsSnoc(cs, i, path);
    MatchingAppend(fs, PreorderKids(cs[..i], path), Preorder(cs[i], path + [i]));
  }
}
