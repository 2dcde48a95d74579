/**
 * `ViewWrapper.tree(limit)`, the same in both revisions (agent/core/view.ts
 * and agent/view.ts): one console line per view in pre-order, prefixed by
 * its child-index path, and a single summary line in place of the children
 * of a view whose path is at least `limit` long.  The console is modelled
 * as the list of lines written; `show` stands for `instance.toString()`.
 */
module ViewTree {
  import opened Wrappers
  import opened Nodes
  import opened IdFormat

  /** One console line: a view with its path, or the summary of a view's children left out. */
  datatype Line = ViewLine(path: seq<nat>, view: Node) | Cutoff(depth: nat, count: nat)

  /** `stack.map(x => x + '|').join('')`. */
  function PathPrefix(stack: seq<nat>): (s: string)
    ensures |stack| == 0 <==> s == ""
    ensures |stack| > 0 ==> s[|s| - 1] == '|'
  {
    if |stack| == 0 then "" else PathPrefix(stack[..|stack| - 1]) + Digits(stack[|stack| - 1], 10) + "|"
  }

  /** `'  '.repeat(k)`. */
  function Indent(k: nat): (s: string)
    ensures |s| == 2 * k && forall i :: 0 <= i < |s| ==> s[i] == ' '
  {
    if k == 0 then "" else Indent(k - 1) + "  "
  }

  /** The text `console.log` writes for a line. */
  function Render(line: Line, show: Node -> string): string
  {
    match line
    case ViewLine(path, view) => PathPrefix(path) + " " + show(view)
    case Cutoff(depth, count) => Indent(depth) + "  [" + Digits(count, 10) + " children(s) ...]"
  }

  function RenderAll(ls: seq<Line>, show: Node -> string): (r: seq<string>)
    ensures |r| == |ls| && forall i :: 0 <= i < |ls| ==> r[i] == Render(ls[i], show)
  {
    if |ls| == 0 then [] else RenderAll(ls[..|ls| - 1], show) + [Render(ls[|ls| - 1], show)]
  }

  /** `stack.length >= limit`; `None` is the default `NaN`, never reached. */
  predicate CutsOff(limit: Option<int>, depth: nat)
  {
    limit.Some? && depth >= limit.value
  }

  /** The lines `inner(root, stack, limit)` writes. */
  function Lines(n: Node, stack: seq<nat>, limit: Option<int>): (r: seq<Line>)
    ensures |r| > 0 && r[0] == ViewLine(stack, n)
  {
    [ViewLine(stack, n)] + match n.kids
                          case NotGroup => []
                          case Group(cs) =>
                            if CutsOff(limit, |stack|) then [Cutoff(|stack|, |cs|)] else KidsLines(cs, stack, limit)
  }

  /** The lines of the children `cs` of the view at `stack`, child by child. */
  function KidsLines(cs: seq<Node>, stack: seq<nat>, limit: Option<int>): seq<Line>
  {
    if |cs| == 0 then []
    else KidsLines(cs[..|cs| - 1], stack, limit) + Lines(cs[|cs| - 1], stack + [|cs| - 1], limit)
  }

  lemma KidsLinesSnoc(cs: seq<Node>, i: nat, stack: seq<nat>, limit: Option<int>)
    requires i < |cs|
    ensures KidsLines(cs[..i + 1], stack, limit) == KidsLines(cs[..i], stack, limit) + Lines(cs[i], stack + [i], limit)
  {
    assert cs[..i + 1][..i] == cs[..i];
  }

  /**
   * The state of one `tree` call: the path stack and the lines written so
   * far, each kept as the `Line` it renders.
   */
  class TreePrinter {
    var stack: seq<nat>
    var out: seq<Line>

    constructor ()
      ensures stack == [] && out == []
    {
      stack := [];
      out := [];
    }

    /**
     * `inner(root, stack, limit)`: writes the lines of `root`'s subtree and
     * leaves the stack as it found it (every push has its pop).
     */
    method Inner(root: Node, limit: Option<int>)
      modifies this
      ensures stack == old(stack)
      ensures out == old(out) + Lines(root, old(stack), limit)
      decreases root, 1
    {
      LinesOfView(root, stack, limit);
      out := out + [ViewLine(stack, root)];
      var children := GetChildren(root);
      if children.Some? {
        var cs := children.value;
        if CutsOff(limit, |stack|) {
          out := out + [Cutoff(|stack|, |cs|)];
        } else {
          InnerChildren(cs, limit);
        }
      }
    }

    /** The `for` loop of `inner` over the children `cs` of the view at the current stack. */
    method InnerChildren(cs: seq<Node>, limit: Option<int>)
      modifies this
      ensures stack == old(stack)
      ensures out == old(out) + KidsLines(cs, old(stack), limit)
      decreases cs, 0
    {
      ghost var s0 := stack;
      ghost var start := out;
      for i := 0 to |cs|
        invariant stack == s0
        invariant out == start + KidsLines(cs[..i], s0, limit)
      {
        stack := stack + [i];
        Inner(cs[i], limit);
        stack := stack[..|stack| - 1];
        assert stack == s0;
        KidsLinesSnoc(cs, i, s0, limit);
      }
      assert cs[..|cs|] == cs;
    }
  }

  /** A view's lines: its own, then the summary or its children's lines. */
  lemma LinesOfView(n: Node, stack: seq<nat>, limit: Option<int>)
    ensures n.kids.NotGroup? ==> Lines(n, stack, limit) == [ViewLine(stack, n)]
    ensures n.kids.Group? && CutsOff(limit, |stack|) ==> Lines(n, stack, limit) == [ViewLine(stack, n), Cutoff(|stack|, |n.kids.items|)]
    ensures n.kids.Group? && !CutsOff(limit, |stack|) ==> Lines(n, stack, limit) == [ViewLine(stack, n)] + KidsLines(n.kids.items, stack, limit)
  {
  }

  /** `ViewWrapper.tree(limit)`: the text of the lines written for the subtree, starting from an empty stack. */
  method Tree(root: Node, show: Node -> string, limit: Option<int>) returns (lines: seq<string>)
    ensures lines == RenderAll(Lines(root, [], limit), show)
  {
    var printer := new TreePrinter();
    printer.Inner(root, limit);
    lines := RenderAll(printer.out, show);
  }

  // ---------------------------------------------------------------------
  // Properties
  // ---------------------------------------------------------------------

  /** The line of each visit of a pre-order. */
  function ViewLines(vs: seq<Visit>): (r: seq<Line>)
    ensures |r| == |vs| && forall i :: 0 <= i < |vs| ==> r[i] == ViewLine(vs[i].path, vs[i].node)
  {
    if |vs| == 0 then [] else ViewLines(vs[..|vs| - 1]) + [ViewLine(vs[|vs| - 1].path, vs[|vs| - 1].node)]
  }

  lemma ViewLinesAppend(a: seq<Visit>, b: seq<Visit>)
    ensures ViewLines(a + b) == ViewLines(a) + ViewLines(b)
  {
    assert ViewLines(a + b) == ViewLines(a) + ViewLines(b);
  }

  /** Without a limit, `tree` writes one line per view, in pre-order, each with its own path. */
  lemma {:induction false} Unlimited(n: Node, stack: seq<nat>)
    ensures Lines(n, stack, None) == ViewLines(Preorder(n, stack))
    decreases n, 1
  {
    match n.kids
    case NotGroup =>
    case Group(cs) =>
      UnlimitedKids(cs, stack);
      ViewLinesAppend([Visit(stack, n)], PreorderKids(cs, stack));
  }

  lemma {:induction false} UnlimitedKids(cs: seq<Node>, stack: seq<nat>)
    ensures KidsLines(cs, stack, None) == ViewLines(PreorderKids(cs, stack))
    decreases cs, 0
  {
    if |cs| > 0 {
      var m := |cs| - 1;
      UnlimitedKids(cs[..m], stack);
      Unlimited(cs[m], stack + [m]);
      ViewLinesAppend(PreorderKids(cs[..m], stack), Preorder(cs[m], stack + [m]));
    }
  }

  /** The number of levels of `ViewGroup`s in a subtree: 0 for a view that is not one. */
  function Height(n: Node): nat
  {
    match n.kids
    case NotGroup => 0
    case Group(cs) => 1 + KidsHeight(cs)
  }

  function KidsHeight(cs: seq<Node>): nat
  {
    if |cs| == 0 then 0
    else
      var h := Height(cs[|cs| - 1]);
      var rest := KidsHeight(cs[..|cs| - 1]);
      if h > rest then h else rest
  }

  /** A limit the subtree never reaches changes nothing. */
  lemma {:induction false} WithinLimit(n: Node, stack: seq<nat>, limit: int)
    requires |stack| + Height(n) <= limit
    ensures Lines(n, stack, Some(limit)) == Lines(n, stack, None)
    decreases n, 1
  {
    match n.kids
    case NotGroup =>
    case Group(cs) => WithinLimitKids(cs, stack, limit);
  }

  lemma {:induction false} WithinLimitKids(cs: seq<Node>, stack: seq<nat>, limit: int)
    requires |stack| + 1 + KidsHeight(cs) <= limit
    ensures KidsLines(cs, stack, Some(limit)) == KidsLines(cs, stack, None)
    decreases cs, 0
  {
    if |cs| > 0 {
      var m := |cs| - 1;
      WithinLimitKids(cs[..m], stack, limit);
      WithinLimit(cs[m], stack + [m], limit);
    }
  }

  /**
   * With a limit at least the starting depth, no view line is deeper than
   * the limit, and every summary line stands at exactly the limit.
   */
  lemma {:induction false} LimitBounds(n: Node, stack: seq<nat>, limit: int)
    requires |stack| <= limit
    ensures forall e :: e in Lines(n, stack, Some(limit)) && e.ViewLine? ==> |stack| <= |e.path| <= limit
    ensures forall e :: e in Lines(n, stack, Some(limit)) && e.Cutoff? ==> e.depth == limit
    decreases n, 1
  {
    match n.kids
    case NotGroup =>
    case Group(cs) =>
      if !CutsOff(Some(limit), |stack|) {
        LimitBoundsKids(cs, stack, limit);
      }
  }

  lemma {:induction false} LimitBoundsKids(cs: seq<Node>, stack: seq<nat>, limit: int)
    requires |stack| < limit
    ensures forall e :: e in KidsLines(cs, stack, Some(limit)) && e.ViewLine? ==> |stack| < |e.path| <= limit
    ensures forall e :: e in KidsLines(cs, stack, Some(limit)) && e.Cutoff? ==> e.depth == limit
    decreases cs, 0
  {
    if |cs| > 0 {
      var m := |cs| - 1;
      LimitBoundsKids(cs[..m], stack, limit);
      LimitBounds(cs[m], stack + [m], limit);
    }
  }

  /** At or past the limit, a `ViewGroup` gets its own line and one summary of its children. */
  lemma AtLimit(n: Node, stack: seq<nat>, limit: int)
    requires n.kids.Group? && |stack| >= limit
    ensures Lines(n, stack, Some(limit)) == [ViewLine(stack, n), Cutoff(|stack|, |n.kids.items|)]
  {
  }

  /** The length of the longest prefix of `s` that ends in `|` (0 when `s` has none). */
  function AfterLastBar(s: string): (k: nat)
    ensures k <= |s|
  {
    if |s| == 0 then 0 else if s[|s| - 1] == '|' then |s| else AfterLastBar(s[..|s| - 1])
  }

  /** After a prefix that is empty or ends in `|`, a run with no `|` starts right after the last `|`. */
  lemma {:induction false} AfterLastBarOfRun(p: string, d: string)
    requires p == "" || p[|p| - 1] == '|'
    requires forall i :: 0 <= i < |d| ==> d[i] != '|'
    ensures AfterLastBar(p + d) == |p|
    decreases |d|
  {
    if |d| == 0 {
      assert p + d == p;
    } else {
      var d0 := d[..|d| - 1];
      assert (p + d)[..|p + d| - 1] == p + d0;
      assert (p + d)[|p + d| - 1] == d[|d| - 1];
      AfterLastBarOfRun(p, d0);
    }
  }

  /**
   * A prefix that is empty or ends in `|`, followed by a run with no `|`,
   * splits in one way only: the run is what follows the last `|`.
   */
  lemma SplitAtLastBar(p: string, d: string, q: string, e: string)
    requires p == "" || p[|p| - 1] == '|'
    requires q == "" || q[|q| - 1] == '|'
    requires forall i :: 0 <= i < |d| ==> d[i] != '|'
    requires forall i :: 0 <= i < |e| ==> e[i] != '|'
    requires p + d == q + e
    ensures p == q && d == e
  {
    var s := p + d;
    AfterLastBarOfRun(p, d);
    AfterLastBarOfRun(q, e);
    assert p == s[..|p|] && q == s[..|q|];
    assert d == s[|p|..] && e == s[|q|..];
  }

  /**
   * The printed prefix spells the child-index path: two different paths
   * never print the same prefix, so the path can be read back from a line.
   */
  lemma {:induction false} PathPrefixInjective(a: seq<nat>, b: seq<nat>)
    ensures PathPrefix(a) == PathPrefix(b) <==> a == b
    decreases |a|
  {
    if PathPrefix(a) == PathPrefix(b) && |a| > 0 && |b| > 0 {
      var a0, b0 := a[..|a| - 1], b[..|b| - 1];
      var x, y := a[|a| - 1], b[|b| - 1];
      var p, q := PathPrefix(a0), PathPrefix(b0);
      var d, e := Digits(x, 10), Digits(y, 10);
      assert p + d == q + e by {
        assert (p + d + "|")[..|p + d|] == p + d;
        assert (q + e + "|")[..|q + e|] == q + e;
      }
      assert forall i :: 0 <= i < |d| ==> d[i] != '|' by {
        assert forall i :: 0 <= i < |d| ==> IsDigit(d[i], 10);
      }
      assert forall i :: 0 <= i < |e| ==> e[i] != '|' by {
        assert forall i :: 0 <= i < |e| ==> IsDigit(e[i], 10);
      }
      SplitAtLastBar(p, d, q, e);
      DigitsRoundTrip(x, 10);
      DigitsRoundTrip(y, 10);
      PathPrefixInjective(a0, b0);
      assert a == a0 + [x] && b == b0 + [y];
    }
  }

  /**
   * A view's line is its path prefix, which ends in `|` when the path is
   * not empty, then a space, then the view's `toString()`.
   */
  lemma RenderViewLine(path: seq<nat>, view: Node, show: Node -> string)
    ensures var k := |PathPrefix(path)|;
            var r := Render(ViewLine(path, view), show);
            |r| > k && r[..k] == PathPrefix(path) && r[k] == ' ' && r[k + 1..] == show(view) &&
            (|path| > 0 ==> r[k - 1] == '|')
  {
    var p := PathPrefix(path);
    var r := Render(ViewLine(path, view), show);
    assert r == p + " " + show(view);
    assert r[..|p|] == p;
    assert r[|p| + 1..] == show(view);
  }

  /** A summary line is indented two spaces per level of the view, plus two, before its bracket. */
  lemma CutoffIndent(depth: nat, count: nat, show: Node -> string)
    ensures |Render(Cutoff(depth, count), show)| > 2 * depth + 2
    ensures forall i :: 0 <= i < 2 * depth + 2 ==> Render(Cutoff(depth, count), show)[i] == ' '
    ensures Render(Cutoff(depth, count), show)[2 * depth + 2] == '['
  {
    var s := Render(Cutoff(depth, count), show);
    var pad := Indent(depth) + "  [";
    assert s == pad + Digits(count, 10) + " children(s) ...]";
    assert s[..|pad|] == pad;
  }
}
