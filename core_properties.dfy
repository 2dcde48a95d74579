/**
 * What the three walks of the current `Selector` (agent/core/view.ts)
 * promise, stated about their reference definitions: the breadth-first
 * walk visits every view once in level order, an empty filter list accepts
 * everything, `boundsContains` rejects everything when no depth is given,
 * and which of the walks can disagree with `findAll()`.
 */
module CoreProperties {
  import opened Wrappers
  import opened Nodes
  import opened CoreFilters
  import opened Ranking
  import opened CoreTraversal

  // ---------------------------------------------------------------------
  // The breadth-first walk visits every view exactly once
  // ---------------------------------------------------------------------

  /** The views (with depths) of the subtrees of a queue's tasks, task by task. */
  ghost function QueueLevels(q: seq<Task>): seq<Task>
  {
    if |q| == 0 then [] else QueueLevels(q[..|q| - 1]) + Levels(q[|q| - 1].node, q[|q| - 1].depth)
  }

  lemma {:induction false} QueueLevelsAppend(a: seq<Task>, b: seq<Task>)
    ensures QueueLevels(a + b) == QueueLevels(a) + QueueLevels(b)
    decreases |b|
  {
    if |b| > 0 {
      assert (a + b)[..|a + b| - 1] == a + b[..|b| - 1];
      assert (a + b)[|a + b| - 1] == b[|b| - 1];
      QueueLevelsAppend(a, b[..|b| - 1]);
    } else {
      assert a + b == a;
    }
  }

  /** The children pushed by one task stand for the subtrees below it. */
  lemma {:induction false} QueueLevelsTasks(cs: seq<Node>, d: int)
    ensures QueueLevels(TasksAt(cs, d)) == LevelsKids(cs, d)
  {
    if |cs| > 0 {
      assert TasksAt(cs, d)[..|cs| - 1] == TasksAt(cs[..|cs| - 1], d);
      QueueLevelsTasks(cs[..|cs| - 1], d);
    }
  }

  /** A task's subtree: the task itself, then the subtrees of the children it pushes. */
  lemma LevelsOfTask(t: Task)
    ensures Levels(t.node, t.depth) == [t] + QueueLevels(KidTasks(t))
  {
    match t.node.kids
    case NotGroup =>
    case Group(cs) => QueueLevelsTasks(cs, t.depth + 1);
  }

  /** The queue's subtrees: the head's own, then those of the rest. */
  lemma QueueLevelsCons(q: seq<Task>)
    requires |q| > 0
    ensures QueueLevels(q) == [q[0]] + QueueLevels(KidTasks(q[0])) + QueueLevels(q[1..])
  {
    assert q == [q[0]] + q[1..];
    QueueLevelsAppend([q[0]], q[1..]);
    assert [q[0]][..0] == [];
    assert QueueLevels([q[0]]) == Levels(q[0].node, q[0].depth);
    LevelsOfTask(q[0]);
  }

  /** Reordering the queue's parts leaves its multiset alone. */
  lemma MultisetRotate(t: Task, a: seq<Task>, b: seq<Task>, c: seq<Task>)
    requires multiset(a) == multiset(c + b)
    ensures multiset([t] + a) == multiset([t] + b + c)
  {
  }

  /** The queue loop, started on any queue, takes each view below the queued tasks once. */
  lemma {:induction false} BfsRunPermutes(q: seq<Task>)
    ensures multiset(BfsRun(q)) == multiset(QueueLevels(q))
    decreases QueueSize(q)
  {
    if |q| > 0 {
      var k := KidTasks(q[0]);
      QueueRunStep(q, q[0], k);
      BfsRunPermutes(q[1..] + k);
      QueueLevelsAppend(q[1..], k);
      QueueLevelsCons(q);
      MultisetRotate(q[0], BfsRun(q[1..] + k), QueueLevels(k), QueueLevels(q[1..]));
    }
  }

  /**
   * `bfs` visits every view of the tree exactly once, each at its depth
   * (path length + 1): its visiting order is a permutation of the pre-order.
   */
  lemma LevelOrderVisitsAll(root: Node)
    ensures multiset(LevelOrder(root)) == multiset(DepthsOf(Preorder(root, [])))
    ensures |LevelOrder(root)| == Size(root)
  {
    BfsRunPermutes([Task(root, 1)]);
    assert [Task(root, 1)][..0] == [];
    assert QueueLevels([Task(root, 1)]) == Levels(root, 1);
    PreorderDepths(root, []);
    PreorderShape(root, []);
    assert |LevelOrder(root)| == |multiset(LevelOrder(root))|;
  }

  // ---------------------------------------------------------------------
  // The breadth-first walk goes level by level
  // ---------------------------------------------------------------------

  ghost predicate DepthsAscending(q: seq<Task>)
  {
    forall i, j :: 0 <= i < j < |q| ==> q[i].depth <= q[j].depth
  }

  /** The shape the queue keeps: depths ascending, none more than one below the head's. */
  ghost predicate QueueOk(q: seq<Task>)
  {
    DepthsAscending(q) && (|q| > 0 ==> forall i :: 0 <= i < |q| ==> q[i].depth <= q[0].depth + 1)
  }

  lemma KidTasksDepth(t: Task)
    ensures forall i :: 0 <= i < |KidTasks(t)| ==> KidTasks(t)[i].depth == t.depth + 1
  {
  }

  /** Taking the head and pushing its children keeps the queue's shape. */
  lemma {:induction false} QueueOkStep(q: seq<Task>)
    requires |q| > 0 && QueueOk(q)
    ensures QueueOk(q[1..] + KidTasks(q[0]))
    ensures |q[1..] + KidTasks(q[0])| > 0 ==> q[0].depth <= (q[1..] + KidTasks(q[0]))[0].depth
  {
    var t := q[0];
    var k := KidTasks(t);
    var r := q[1..] + k;
    var m := |q| - 1;
    KidTasksDepth(t);
    assert forall i :: 0 <= i < m ==> r[i] == q[i + 1];
    assert forall i :: m <= i < |r| ==> r[i] == k[i - m];
    forall i, j | 0 <= i < j < |r|
      ensures r[i].depth <= r[j].depth
    {
      if j < m {
        assert r[i].depth == q[i + 1].depth && r[j].depth == q[j + 1].depth;
      } else if i < m {
        assert r[i].depth <= t.depth + 1;
      }
    }
    if |r| > 0 {
      assert t.depth <= r[0].depth by {
        if m > 0 {
          assert r[0] == q[1];
        }
      }
      forall i | 0 <= i < |r|
        ensures r[i].depth <= r[0].depth + 1
      {
        if i < m {
          assert r[i] == q[i + 1];
        }
      }
    }
  }

  /** From a well-shaped queue, the loop takes its tasks in ascending depth. */
  lemma {:induction false} BfsRunAscending(q: seq<Task>)
    requires QueueOk(q)
    ensures DepthsAscending(BfsRun(q))
    ensures |q| > 0 ==> forall i :: 0 <= i < |BfsRun(q)| ==> q[0].depth <= BfsRun(q)[i].depth
    decreases QueueSize(q)
  {
    if |q| > 0 {
      var t := q[0];
      var r := q[1..] + KidTasks(t);
      BfsStepShrinks(q);
      QueueOkStep(q);
      BfsRunAscending(r);
      var rest := BfsRun(r);
      assert BfsRun(q) == [t] + rest;
      if |r| == 0 {
        assert rest == [];
      }
      assert forall i :: 0 <= i < |rest| ==> t.depth <= rest[i].depth;
    }
  }

  /** `bfs` starts at the root and never visits a view before a shallower one. */
  lemma LevelOrderAscending(root: Node)
    ensures LevelOrder(root)[0] == Task(root, 1)
    ensures forall i, j :: 0 <= i < j < |LevelOrder(root)| ==> LevelOrder(root)[i].depth <= LevelOrder(root)[j].depth
  {
    BfsRunAscending([Task(root, 1)]);
  }

  // ---------------------------------------------------------------------
  // Within a level, the breadth-first walk goes left to right
  // ---------------------------------------------------------------------

  /** The tasks of a list that have depth `d`, in order. */
  ghost function AtDepth(ts: seq<Task>, d: int): seq<Task>
  {
    if |ts| == 0 then []
    else AtDepth(ts[..|ts| - 1], d) + (if ts[|ts| - 1].depth == d then [ts[|ts| - 1]] else [])
  }

  lemma {:induction false} AtDepthAppend(a: seq<Task>, b: seq<Task>, d: int)
    ensures AtDepth(a + b, d) == AtDepth(a, d) + AtDepth(b, d)
    decreases |b|
  {
    if |b| > 0 {
      assert (a + b)[..|a + b| - 1] == a + b[..|b| - 1];
      assert (a + b)[|a + b| - 1] == b[|b| - 1];
      AtDepthAppend(a, b[..|b| - 1], d);
    } else {
      assert a + b == a;
    }
  }

  /** A list with no task at depth `d` has nothing to keep. */
  lemma {:induction false} AtDepthNone(ts: seq<Task>, d: int)
    requires forall t :: t in ts ==> t.depth != d
    ensures AtDepth(ts, d) == []
  {
    if |ts| > 0 {
      assert ts[|ts| - 1] in ts;
      assert forall t :: t in ts[..|ts| - 1] ==> t in ts;
      AtDepthNone(ts[..|ts| - 1], d);
    }
  }

  /** The tasks of a whole level pushed, in order: the children of each task, one task after another. */
  function Expand(level: seq<Task>): seq<Task>
  {
    if |level| == 0 then [] else KidTasks(level[0]) + Expand(level[1..])
  }

  /** In a subtree put at depth `e`, no view is shallower than `e`. */
  lemma {:induction false} LevelsDeeper(n: Node, e: int)
    ensures forall t :: t in Levels(n, e) ==> t.depth >= e
    decreases n, 1
  {
    match n.kids
    case NotGroup =>
    case Group(cs) => LevelsKidsDeeper(cs, e + 1);
  }

  lemma {:induction false} LevelsKidsDeeper(cs: seq<Node>, e: int)
    ensures forall t :: t in LevelsKids(cs, e) ==> t.depth >= e
    decreases cs, 0
  {
    if |cs| > 0 {
      LevelsKidsDeeper(cs[..|cs| - 1], e);
      LevelsDeeper(cs[|cs| - 1], e);
    }
  }

  /** The subtrees below a task's children lie deeper than the task. */
  lemma KidsLevelsDeeper(t: Task)
    ensures forall u :: u in QueueLevels(KidTasks(t)) ==> u.depth > t.depth
  {
    match t.node.kids
    case NotGroup =>
    case Group(cs) =>
      QueueLevelsTasks(cs, t.depth + 1);
      LevelsKidsDeeper(cs, t.depth + 1);
  }

  /** Every task of an expanded level lies one level deeper. */
  lemma {:induction false} ExpandDepth(level: seq<Task>, d: int)
    requires forall t :: t in level ==> t.depth == d
    ensures forall t :: t in Expand(level) ==> t.depth == d + 1
  {
    if |level| > 0 {
      assert level[0] in level;
      assert forall t :: t in level[1..] ==> t in level;
      KidTasksDepth(level[0]);
      ExpandDepth(level[1..], d);
    }
  }

  /** A level holds its own tasks plus everything below them. */
  lemma {:induction false} ExpandSize(level: seq<Task>)
    ensures QueueSize(level) == |level| + QueueSize(Expand(level))
  {
    if |level| > 0 {
      var t := level[0];
      assert level == [t] + level[1..];
      QueueSizeAppend([t], level[1..]);
      assert [t][..0] == [];
      QueueSizeAppend(KidTasks(t), Expand(level[1..]));
      match t.node.kids {
        case NotGroup =>
        case Group(cs) => QueueSizeTasks(cs, t.depth + 1);
      }
      ExpandSize(level[1..]);
    }
  }

  /**
   * The queue loop takes the tasks queued before any it pushes: from
   * `a + c`, it visits `a`, then runs on `c` followed by the children of `a`.
   */
  lemma {:induction false} RunLevel(a: seq<Task>, c: seq<Task>)
    ensures BfsRun(a + c) == a + BfsRun(c + Expand(a))
    decreases |a|
  {
    if |a| > 0 {
      var t := a[0];
      var k := KidTasks(t);
      var q := a + c;
      HeadOfConcat(a, c, k);
      QueueRunStep(q, t, k);
      RunLevel(a[1..], c + k);
      ConcatAssoc(c, k, Expand(a[1..]));
      RunLevelJoin(a, BfsRun(q), BfsRun(c + Expand(a)));
    } else {
      assert a + c == c && c + Expand(a) == c;
    }
  }

  lemma HeadOfConcat(a: seq<Task>, c: seq<Task>, k: seq<Task>)
    requires |a| > 0
    ensures (a + c)[0] == a[0] && |a + c| > 0
    ensures (a + c)[1..] + k == a[1..] + (c + k)
  {
    assert (a + c)[1..] == a[1..] + c;
  }

  lemma RunLevelJoin(a: seq<Task>, run: seq<Task>, tail: seq<Task>)
    requires |a| > 0 && run == [a[0]] + (a[1..] + tail)
    ensures run == a + tail
  {
    assert [a[0]] + a[1..] == a;
  }

  /**
   * A level's subtrees, kept at one depth: the level's own tasks at its
   * depth, the subtrees of the next level below it.
   */
  lemma {:induction false} QueueLevelsAtDepth(level: seq<Task>, d: int, e: int)
    requires forall t :: t in level ==> t.depth == d
    ensures AtDepth(QueueLevels(level), e) == AtDepth(level, e) + AtDepth(QueueLevels(Expand(level)), e)
  {
    if |level| > 0 {
      var t := level[0];
      var rest := level[1..];
      var k := KidTasks(t);
      assert forall u :: u in rest ==> u in level;
      assert t in level;
      QueueLevelsAtDepth(rest, d, e);
      QueueLevelsCons(level);
      QueueLevelsAppend(k, Expand(rest));
      assert level == [t] + rest;
      AtDepthAppend([t], rest, e);
      AtDepthAppend([t] + QueueLevels(k), QueueLevels(rest), e);
      AtDepthAppend([t], QueueLevels(k), e);
      AtDepthAppend(QueueLevels(k), QueueLevels(Expand(rest)), e);
      if e == d {
        KidsLevelsDeeper(t);
        AtDepthNone(QueueLevels(k), e);
      } else {
        AtDepthNone(rest, e);
      }
      SwapAroundEmpty(AtDepth([t], e), AtDepth(QueueLevels(k), e), AtDepth(rest, e), AtDepth(QueueLevels(Expand(rest)), e));
    } else {
      assert Expand(level) == [];
    }
  }

  lemma SwapAroundEmpty(a: seq<Task>, b: seq<Task>, c: seq<Task>, d: seq<Task>)
    requires b == [] || c == []
    ensures a + b + (c + d) == (a + c) + (b + d)
  {
    if b == [] {
      assert a + b == a && b + d == d;
    } else {
      assert c + d == d && a + c == a;
    }
  }

  /**
   * Started on one whole level, the queue loop visits the views of each
   * depth in the order of the level's subtrees.
   */
  lemma {:induction false} RunLevelsAtDepth(level: seq<Task>, d: int, e: int)
    requires forall t :: t in level ==> t.depth == d
    ensures AtDepth(BfsRun(level), e) == AtDepth(QueueLevels(level), e)
    decreases QueueSize(level)
  {
    if |level| > 0 {
      var next := Expand(level);
      RunLevel(level, []);
      assert level + [] == level && [] + next == next;
      ExpandSize(level);
      ExpandDepth(level, d);
      RunLevelsAtDepth(next, d + 1, e);
      AtDepthAppend(level, BfsRun(next), e);
      QueueLevelsAtDepth(level, d, e);
    }
  }

  /**
   * `bfs` visits the views of each depth left to right: in the order the
   * pre-order meets them, the order that also breaks its ties.
   */
  lemma LevelOrderWithinLevel(root: Node, e: int)
    ensures AtDepth(LevelOrder(root), e) == AtDepth(Levels(root, 1), e)
    ensures AtDepth(LevelOrder(root), e) == AtDepth(DepthsOf(Preorder(root, [])), e)
  {
    var q := [Task(root, 1)];
    assert forall t :: t in q ==> t.depth == 1;
    RunLevelsAtDepth(q, 1, e);
    assert q[..0] == [];
    assert QueueLevels(q) == Levels(root, 1);
    var none: seq<nat> := [];
    assert |none| + 1 == 1;
    PreorderDepths(root, none);
  }

  // ---------------------------------------------------------------------
  // No filters: everything is a candidate
  // ---------------------------------------------------------------------

  /** With no filters, the depth-first walk keeps every view with weight 1, in order. */
  lemma {:induction false} DfsNoFilters(vs: seq<Visit>)
    ensures |DfsCandidates([], vs)| == |vs|
    ensures forall i :: 0 <= i < |vs| ==> DfsCandidates([], vs)[i] == Scored(1, vs[i].node)
  {
    if |vs| > 0 {
      DfsNoFilters(vs[..|vs| - 1]);
    }
  }

  /** With no filters, the breadth-first walk keeps every view with weight 1, in order. */
  lemma {:induction false} BfsNoFilters(ts: seq<Task>)
    ensures |BfsCandidates([], ts)| == |ts|
    ensures forall i :: 0 <= i < |ts| ==> BfsCandidates([], ts)[i] == Scored(1, ts[i].node)
  {
    if |ts| > 0 {
      BfsNoFilters(ts[..|ts| - 1]);
    }
  }

  /** With no filters, `findAll` keeps every view. */
  lemma {:induction false} MatchingNoFilters(vs: seq<Visit>)
    ensures Matching([], vs) == NodesOf(vs)
  {
    if |vs| > 0 {
      MatchingNoFilters(vs[..|vs| - 1]);
    }
  }

  /** Among equal weights, the first entry is the one chosen. */
  lemma FirstMaxOfEqual(s: seq<Scored>)
    requires |s| > 0
    requires forall i :: 0 <= i < |s| ==> s[i].weight == s[0].weight
    ensures FirstMaxIndex(s) == 0
  {
  }

  /**
   * With no filters, `find` returns the search root under either algorithm,
   * and `findAll` returns every view of the subtree in pre-order, root first.
   */
  lemma NoFilters(root: Node)
    ensures Best(DfsCandidates([], Preorder(root, []))) == Some(root)
    ensures Best(BfsCandidates([], LevelOrder(root))) == Some(root)
    ensures Matching([], Preorder(root, [])) == NodesOf(Preorder(root, []))
    ensures |Matching([], Preorder(root, []))| == Size(root) && Matching([], Preorder(root, []))[0] == root
  {
    var p := Preorder(root, []);
    PreorderShape(root, []);
    DfsNoFilters(p);
    FirstMaxOfEqual(DfsCandidates([], p));
    var lo := LevelOrder(root);
    LevelOrderAscending(root);
    BfsNoFilters(lo);
    FirstMaxOfEqual(BfsCandidates([], lo));
    MatchingNoFilters(p);
  }

  // ---------------------------------------------------------------------
  // boundsContains without a depth
  // ---------------------------------------------------------------------

  /** A `boundsContains` filter rejects every view when the walk passes no depth. */
  lemma PointInRejects(fs: seq<Filter>, k: nat, n: Node)
    requires k < |fs| && fs[k].PointIn?
    ensures !AllPass(fs, n, None)
    ensures Candidate(fs, n, None) == []
  {
    assert Weight(fs[k], n, None) == 0;
  }

  /** So a selector with `boundsContains` finds nothing with `find('bfs')`. */
  lemma {:induction false} PointInRejectsBfs(fs: seq<Filter>, k: nat, ts: seq<Task>)
    requires k < |fs| && fs[k].PointIn?
    ensures BfsCandidates(fs, ts) == []
  {
    if |ts| > 0 {
      PointInRejects(fs, k, ts[|ts| - 1].node);
      PointInRejectsBfs(fs, k, ts[..|ts| - 1]);
    }
  }

  /** ... and nothing with `findAll()`. */
  lemma {:induction false} PointInRejectsFindAll(fs: seq<Filter>, k: nat, vs: seq<Visit>)
    requires k < |fs| && fs[k].PointIn?
    ensures Matching(fs, vs) == []
  {
    if |vs| > 0 {
      PointInRejects(fs, k, vs[|vs| - 1].node);
      PointInRejectsFindAll(fs, k, vs[..|vs| - 1]);
    }
  }

  // ---------------------------------------------------------------------
  // A filter that always weighs 0
  // ---------------------------------------------------------------------

  /** The filter weighs every view 0, whatever depth it is called with. */
  ghost predicate AlwaysZero(f: Filter)
  {
    forall n: Node, d: Option<int> :: Weight(f, n, d) == 0
  }

  /** A filter in the list that always weighs 0 rejects every view, at every depth. */
  lemma ZeroFilterRejects(fs: seq<Filter>, f: Filter, n: Node, depth: Option<int>)
    requires f in fs && AlwaysZero(f)
    ensures !AllPass(fs, n, depth)
    ensures Candidate(fs, n, depth) == []
  {
    var k :| 0 <= k < |fs| && fs[k] == f;
    assert Weight(fs[k], n, depth) == 0;
  }

  /** ... so the depth-first walk has no candidate, ... */
  lemma {:induction false} ZeroFilterDfs(fs: seq<Filter>, f: Filter, vs: seq<Visit>)
    requires f in fs && AlwaysZero(f)
    ensures DfsCandidates(fs, vs) == []
  {
    if |vs| > 0 {
      var v := vs[|vs| - 1];
      ZeroFilterRejects(fs, f, v.node, Some(|v.path| + 1));
      ZeroFilterDfs(fs, f, vs[..|vs| - 1]);
    }
  }

  /** ... nor has the breadth-first walk, ... */
  lemma {:induction false} ZeroFilterBfs(fs: seq<Filter>, f: Filter, ts: seq<Task>)
    requires f in fs && AlwaysZero(f)
    ensures BfsCandidates(fs, ts) == []
  {
    if |ts| > 0 {
      ZeroFilterRejects(fs, f, ts[|ts| - 1].node, None);
      ZeroFilterBfs(fs, f, ts[..|ts| - 1]);
    }
  }

  /** ... and `findAll()` keeps no view. */
  lemma {:induction false} ZeroFilterFindAll(fs: seq<Filter>, f: Filter, vs: seq<Visit>)
    requires f in fs && AlwaysZero(f)
    ensures Matching(fs, vs) == []
  {
    if |vs| > 0 {
      ZeroFilterRejects(fs, f, vs[|vs| - 1].node, None);
      ZeroFilterFindAll(fs, f, vs[..|vs| - 1]);
    }
  }

  // ---------------------------------------------------------------------
  // When find agrees with findAll
  // ---------------------------------------------------------------------

  /** Every built-in filter other than `boundsContains` ignores the depth. */
  lemma BuiltinIsDepthBlind(f: Filter)
    requires !f.PointIn? && !f.Custom?
    ensures DepthBlind(f)
  {
    forall n: Node, d: int
      ensures Weight(f, n, Some(d)) == Weight(f, n, None)
    {
      BuiltinsIgnoreDepth(f, n, Some(d));
    }
  }

  lemma ScoredNodesAppend(a: seq<Scored>, b: seq<Scored>)
    ensures ScoredNodes(a + b) == ScoredNodes(a) + ScoredNodes(b)
  {
    assert ScoredNodes(a + b) == ScoredNodes(a) + ScoredNodes(b);
  }

  /**
   * When no filter looks at the depth, the depth-first candidates are exactly
   * the views `findAll` returns, in the same order.
   */
  lemma {:induction false} DepthBlindDfsIsFindAll(fs: seq<Filter>, vs: seq<Visit>)
    requires forall i :: 0 <= i < |fs| ==> DepthBlind(fs[i])
    ensures ScoredNodes(DfsCandidates(fs, vs)) == Matching(fs, vs)
  {
    if |vs| > 0 {
      var v := vs[|vs| - 1];
      var init := vs[..|vs| - 1];
      DepthBlindDfsIsFindAll(fs, init);
      assert AllPass(fs, v.node, Some(|v.path| + 1)) <==> AllPass(fs, v.node, None) by {
        forall i | 0 <= i < |fs|
          ensures Weight(fs[i], v.node, Some(|v.path| + 1)) == Weight(fs[i], v.node, None)
        {
          assert DepthBlind(fs[i]);
        }
      }
      ScoredNodesAppend(DfsCandidates(fs, init), Candidate(fs, v.node, Some(|v.path| + 1)));
    }
  }

  /** The view `find` picks is one of the candidates. */
  lemma BestIsCandidate(c: seq<Scored>)
    requires Best(c).Some?
    ensures Best(c).value in ScoredNodes(c)
  {
    assert ScoredNodes(c)[FirstMaxIndex(c)] == c[FirstMaxIndex(c)].node;
  }

  /** With depth-blind filters, `find('dfs')` returns a view that `findAll()` returns too. */
  lemma DepthBlindFindInFindAll(fs: seq<Filter>, root: Node)
    requires forall i :: 0 <= i < |fs| ==> DepthBlind(fs[i])
    requires Best(DfsCandidates(fs, Preorder(root, []))).Some?
    ensures Best(DfsCandidates(fs, Preorder(root, []))).value in Matching(fs, Preorder(root, []))
  {
    DepthBlindDfsIsFindAll(fs, Preorder(root, []));
    BestIsCandidate(DfsCandidates(fs, Preorder(root, [])));
  }

  /** The one entry a view can contribute is that view, when it passes. */
  lemma CandidateMembers(fs: seq<Filter>, m: Node, n: Node)
    ensures n in ScoredNodes(Candidate(fs, m, None)) <==> m == n && AllPass(fs, n, None)
  {
    if AllPass(fs, m, None) {
      assert ScoredNodes(Candidate(fs, m, None)) == [m];
    } else {
      assert ScoredNodes(Candidate(fs, m, None)) == [];
    }
  }

  /** A view is among the breadth-first candidates iff some task for it passes every filter. */
  lemma {:induction false} BfsCandidatesMembers(fs: seq<Filter>, ts: seq<Task>, n: Node)
    ensures n in ScoredNodes(BfsCandidates(fs, ts)) <==> exists t :: t in ts && t.node == n && AllPass(fs, n, None)
  {
    if |ts| > 0 {
      var init := ts[..|ts| - 1];
      var last := ts[|ts| - 1];
      BfsCandidatesMembers(fs, init, n);
      ScoredNodesAppend(BfsCandidates(fs, init), Candidate(fs, last.node, None));
      CandidateMembers(fs, last.node, n);
      assert ts == init + [last];
      if exists t :: t in ts && t.node == n && AllPass(fs, n, None) {
        var t :| t in ts && t.node == n && AllPass(fs, n, None);
        if t !in init {
          assert t == last;
        }
      }
    }
  }

  /** A view is among `findAll`'s results iff some visit of it passes every filter. */
  lemma {:induction false} MatchingMembers(fs: seq<Filter>, vs: seq<Visit>, n: Node)
    ensures n in Matching(fs, vs) <==> exists v :: v in vs && v.node == n && AllPass(fs, n, None)
  {
    if |vs| > 0 {
      var init := vs[..|vs| - 1];
      var last := vs[|vs| - 1];
      MatchingMembers(fs, init, n);
      assert vs == init + [last];
      if exists v :: v in vs && v.node == n && AllPass(fs, n, None) {
        var v :| v in vs && v.node == n && AllPass(fs, n, None);
        if v !in init {
          assert v == last;
        }
      }
    }
  }

  /** A task of `DepthsOf(vs)` is a visit of `vs` with its depth. */
  lemma DepthsOfMembers(vs: seq<Visit>, t: Task)
    ensures t in DepthsOf(vs) <==> exists v :: v in vs && t == Task(v.node, |v.path| + 1)
  {
    if t in DepthsOf(vs) {
      var i :| 0 <= i < |vs| && DepthsOf(vs)[i] == t;
      assert vs[i] in vs;
    }
    if exists v :: v in vs && t == Task(v.node, |v.path| + 1) {
      var v :| v in vs && t == Task(v.node, |v.path| + 1);
      var i :| 0 <= i < |vs| && vs[i] == v;
      assert DepthsOf(vs)[i] == t;
    }
  }

  /**
   * `find('bfs')` chooses among exactly the views `findAll()` returns: the
   * two walks differ in order, never in which views pass.
   */
  lemma BfsCandidatesAreFindAll(fs: seq<Filter>, root: Node, n: Node)
    ensures n in ScoredNodes(BfsCandidates(fs, LevelOrder(root))) <==> n in Matching(fs, Preorder(root, []))
  {
    var lo := LevelOrder(root);
    var p := Preorder(root, []);
    LevelOrderVisitsAll(root);
    BfsCandidatesMembers(fs, lo, n);
    MatchingMembers(fs, p, n);
    if n in ScoredNodes(BfsCandidates(fs, lo)) {
      var t :| t in lo && t.node == n && AllPass(fs, n, None);
      assert t in multiset(DepthsOf(p));
      DepthsOfMembers(p, t);
    }
    if n in Matching(fs, p) {
      var v :| v in p && v.node == n && AllPass(fs, n, None);
      var t := Task(v.node, |v.path| + 1);
      DepthsOfMembers(p, t);
      assert t in multiset(lo);
    }
  }

  /** So the view `find('bfs')` returns is always one `findAll()` returns. */
  lemma BfsFindInFindAll(fs: seq<Filter>, root: Node)
    requires Best(BfsCandidates(fs, LevelOrder(root))).Some?
    ensures Best(BfsCandidates(fs, LevelOrder(root))).value in Matching(fs, Preorder(root, []))
  {
    BestIsCandidate(BfsCandidates(fs, LevelOrder(root)));
    BfsCandidatesAreFindAll(fs, root, Best(BfsCandidates(fs, LevelOrder(root))).value);
  }

  // ---------------------------------------------------------------------
  // A point filter under dfs: find picks a view findAll rejects
  // ---------------------------------------------------------------------

  /** A 6x6 leaf view centred in its parent. */
  const Inner: Node := Node(None, None, NO_ID, false, None, "android.view.View", Rect(2, 2, 8, 8), NotGroup)

  /** A 10x10 `ViewGroup` holding `Inner` as its only child. */
  const Outer: Node := Node(None, None, NO_ID, false, None, "android.widget.FrameLayout", Rect(0, 0, 10, 10), Group([Inner]))

  /**
   * `boundsContains(5, 5)` on `Outer`: `find('dfs')` weighs `Outer` 1 and
   * `Inner` 2 and returns the deeper `Inner`, while `find('bfs')` returns
   * null and `findAll()` returns nothing.
   */
  lemma PointFilterWalksDisagree()
    ensures DfsCandidates([PointIn(5, 5)], Preorder(Outer, [])) == [Scored(1, Outer), Scored(2, Inner)]
    ensures Best(DfsCandidates([PointIn(5, 5)], Preorder(Outer, []))) == Some(Inner)
    ensures Best(BfsCandidates([PointIn(5, 5)], LevelOrder(Outer))) == None
    ensures Matching([PointIn(5, 5)], Preorder(Outer, [])) == []
  {
    var fs := [PointIn(5, 5)];
    OuterPreorder();
    OuterDfsCandidates();
    PointInRejectsBfs(fs, 0, LevelOrder(Outer));
    PointInRejectsFindAll(fs, 0, Preorder(Outer, []));
  }

  lemma OuterPreorder()
    ensures Preorder(Outer, []) == [Visit([], Outer), Visit([0], Inner)]
  {
    var none: seq<nat> := [];
    assert [Inner][..0] == [];
    assert none + [0] == [0];
    assert PreorderKids([Inner], none) == PreorderKids([], none) + Preorder(Inner, [0]);
  }

  lemma OuterDfsCandidates()
    ensures DfsCandidates([PointIn(5, 5)], [Visit([], Outer), Visit([0], Inner)]) == [Scored(1, Outer), Scored(2, Inner)]
  {
    var fs := [PointIn(5, 5)];
    var vs := [Visit([], Outer), Visit([0], Inner)];
    assert Product(fs, Outer, Some(1)) == 1;
    assert Product(fs, Inner, Some(2)) == 2;
    assert vs[..1] == [Visit([], Outer)];
    assert vs[..1][..0] == [];
    assert DfsCandidates(fs, vs[..1]) == [Scored(1, Outer)];
  }
}
