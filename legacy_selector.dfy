/**
 * The old `Selector` (agent/view.ts): boolean filters, an early-exit
 * depth-first `find()` and a depth-first `findAll()`.  The text filter
 * reads the intended `text` getter (`LegacyView.TextOf`); what the searches
 * do with the getter as written, which throws, is `LegacyAsWritten`.
 */
module LegacySelector {
  import opened Wrappers
  import opened Nodes
  import opened Matchers
  import opened CoreFilters
  import opened Ranking
  import opened CoreTraversal
  import opened CoreProperties
  import opened LegacyView

  /** One entry of the old filter list, named after the builder that pushes it. */
  datatype OldFilter =
    | OText(p: Pattern)
    | ODesc(p: Pattern)
    | OId(param: IdParam)
    | OClass(c: ClassParam)
    | OInside(r: Rect)
    | OCustom(f: Node -> bool)

  /**
   * Whether one old filter accepts a view.  A class handle whose
   * `isInstance` throws yields `undefined`, which `every` treats as false;
   * `boundsInside` compares the fields of its argument directly.
   */
  predicate Holds(f: OldFilter, n: Node): (r: bool)
    ensures f.OText? ==> (r <==> TextMatches(f.p, n.text))
    ensures f.OClass? && f.c.InstanceOf? && f.c.isInstance(n).None? ==> !r
    ensures f.OInside? ==> (r <==> Encloses(f.r, n.bounds))
  {
    match f
    case OText(p) => TextMatches(p, TextOf(n))
    case ODesc(p) => DescMatches(p, n)
    case OId(param) => IdMatches(param, n)
    case OClass(c) => ClassMatches(c, n)
    case OInside(r) => Encloses(r, n.bounds)
    case OCustom(func) => func(n)
  }

  /** `fs.every(func => func(view))`. */
  predicate AllHold(fs: seq<OldFilter>, n: Node)
  {
    forall i :: 0 <= i < |fs| ==> Holds(fs[i], n)
  }

  /** The views of a visit list that pass every old filter, in order. */
  ghost function OldMatching(fs: seq<OldFilter>, vs: seq<Visit>): seq<Node>
  {
    if |vs| == 0 then []
    else
      var n := vs[|vs| - 1].node;
      OldMatching(fs, vs[..|vs| - 1]) + (if AllHold(fs, n) then [n] else [])
  }

  /** The first element of a list, or null. */
  function First(s: seq<Node>): (r: Option<Node>)
    ensures r.None? <==> |s| == 0
    ensures r.Some? ==> r.value == s[0]
  {
    if |s| == 0 then None else Some(s[0])
  }

  lemma {:induction false} OldMatchingAppend(fs: seq<OldFilter>, a: seq<Visit>, b: seq<Visit>)
    ensures OldMatching(fs, a + b) == OldMatching(fs, a) + OldMatching(fs, b)
    decreases |b|
  {
    if |b| > 0 {
      assert (a + b)[..|a + b| - 1] == a + b[..|b| - 1];
      assert (a + b)[|a + b| - 1] == b[|b| - 1];
      OldMatchingAppend(fs, a, b[..|b| - 1]);
    } else {
      assert a + b == a;
    }
  }

  /** One more child of a `for` loop over the children: its matches come next. */
  lemma OldMatchingKidsStep(fs: seq<OldFilter>, cs: seq<Node>, i: nat, path: seq<nat>)
    requires i < |cs|
    ensures OldMatching(fs, PreorderKids(cs[..i + 1], path))
            == OldMatching(fs, PreorderKids(cs[..i], path)) + OldMatching(fs, Preorder(cs[i], path + [i]))
  {
    PreorderKidsSnoc(cs, i, path);
    OldMatchingAppend(fs, PreorderKids(cs[..i], path), Preorder(cs[i], path + [i]));
  }

  lemma OldMatchingHere(fs: seq<OldFilter>, view: Node, path: seq<nat>)
    ensures (if AllHold(fs, view) then [view] else []) == OldMatching(fs, [Visit(path, view)])
  {
    assert [Visit(path, view)][..0] == [];
  }

  /**
   * The inner `inner(view)` of `find()`: the view itself when every filter
   * accepts it, otherwise the first result of its children's searches, in
   * child order.
   */
  method OldFindFrom(fs: seq<OldFilter>, view: Node, ghost path: seq<nat>) returns (r: Option<Node>)
    ensures r == First(OldMatching(fs, Preorder(view, path)))
    decreases view, 1
  {
    ghost var here := [Visit(path, view)];
    OldMatchingHere(fs, view, path);
    PreorderOfGroup(view, path);
    if AllHold(fs, view) {
      OldMatchingAppend(fs, here, Preorder(view, path)[1..]);
      assert Preorder(view, path) == here + Preorder(view, path)[1..];
      return Some(view);
    }
    var children := GetChildren(view);
    if children.Some? {
      r := OldFindChildren(fs, children.value, path);
      OldMatchingAppend(fs, here, PreorderKids(view.kids.items, path));
    } else {
      r := None;
    }
  }

  /**
   * The `for` loop of the old `find()`'s `inner` over the children `cs`: the
   * first child whose search succeeds gives the result, or null.
   */
  method OldFindChildren(fs: seq<OldFilter>, cs: seq<Node>, ghost path: seq<nat>) returns (r: Option<Node>)
    ensures r == First(OldMatching(fs, PreorderKids(cs, path)))
    decreases cs, 0
  {
    for i := 0 to |cs|
      invariant OldMatching(fs, PreorderKids(cs[..i], path)) == []
    {
      var result := OldFindFrom(fs, cs[i], path + [i]);
      OldMatchingKidsStep(fs, cs, i, path);
      if result != None {
        OldFoundInChild(fs, cs, i, path);
        return result;
      }
    }
    assert cs[..|cs|] == cs;
    return None;
  }

  /**
   * When a child's search finds a view after all earlier subtrees found
   * none, that view is the first match of all the children's subtrees.
   */
  lemma OldFoundInChild(fs: seq<OldFilter>, cs: seq<Node>, i: nat, path: seq<nat>)
    requires i < |cs|
    requires OldMatching(fs, PreorderKids(cs[..i], path)) == []
    requires |OldMatching(fs, Preorder(cs[i], path + [i]))| > 0
    ensures First(OldMatching(fs, PreorderKids(cs, path))) == First(OldMatching(fs, Preorder(cs[i], path + [i])))
  {
    var front := PreorderKids(cs[..i + 1], path);
    OldMatchingKidsStep(fs, cs, i, path);
    assert OldMatching(fs, front) == OldMatching(fs, Preorder(cs[i], path + [i]));
    PreorderKidsSplit(cs, i + 1, path);
    OldMatchingAppend(fs, front, PreorderKidsFrom(cs, i + 1, path));
  }

  /** The pre-orders of the children from index `i` on. */
  ghost function PreorderKidsFrom(cs: seq<Node>, i: nat, path: seq<nat>): seq<Visit>
    requires i <= |cs|
    decreases |cs| - i
  {
    if i == |cs| then [] else Preorder(cs[i], path + [i]) + PreorderKidsFrom(cs, i + 1, path)
  }

  lemma {:induction false} PreorderKidsSplit(cs: seq<Node>, i: nat, path: seq<nat>)
    requires i <= |cs|
    ensures PreorderKids(cs, path) == PreorderKids(cs[..i], path) + PreorderKidsFrom(cs, i, path)
    decreases |cs| - i
  {
    if i == |cs| {
      assert cs[..i] == cs;
    } else {
      PreorderKidsSplit(cs, i + 1, path);
      PreorderKidsSnoc(cs, i, path);
      var a := PreorderKids(cs[..i], path);
      var b := Preorder(cs[i], path + [i]);
      var c := PreorderKidsFrom(cs, i + 1, path);
      assert PreorderKidsFrom(cs, i, path) == b + c;
      assert (a + b) + c == a + (b + c);
    }
  }

  /** The inner `inner(view)` of the old `findAll()`: the view when it passes, then its children's results. */
  method OldFindAllFrom(fs: seq<OldFilter>, view: Node, ghost path: seq<nat>) returns (result: seq<Node>)
    ensures result == OldMatching(fs, Preorder(view, path))
    decreases view, 1
  {
    result := if AllHold(fs, view) then [view] else [];
    OldMatchingHere(fs, view, path);
    var children := GetChildren(view);
    PreorderOfGroup(view, path);
    if children.Some? {
      var sub := OldFindAllChildren(fs, children.value, path);
      OldMatchingAppend(fs, [Visit(path, view)], PreorderKids(view.kids.items, path));
      result := result + sub;
    }
  }

  /** The `for` loop of the old `findAll()`'s `inner` over the children `cs`. */
  method OldFindAllChildren(fs: seq<OldFilter>, cs: seq<Node>, ghost path: seq<nat>) returns (result: seq<Node>)
    ensures result == OldMatching(fs, PreorderKids(cs, path))
    decreases cs, 0
  {
    result := [];
    for i := 0 to |cs|
      invariant result == OldMatching(fs, PreorderKids(cs[..i], path))
    {
      var sub := OldFindAllFrom(fs, cs[i], path + [i]);
      OldMatchingKidsStep(fs, cs, i, path);
      result := result + sub;
    }
    assert cs[..|cs|] == cs;
  }

  /** The old `Selector` class. */
  class OldSelector {
    const target: Node
    var filters: seq<OldFilter>

    constructor (wrapper: Node)
      ensures target == wrapper && filters == []
    {
      target := wrapper;
      filters := [];
    }

    method Text(pattern: Pattern) returns (self: OldSelector)
      modifies this
      ensures filters == old(filters) + [OText(pattern)] && self == this
    {
      filters := filters + [OText(pattern)];
      self := this;
    }

    method Desc(pattern: Pattern) returns (self: OldSelector)
      modifies this
      ensures filters == old(filters) + [ODesc(pattern)] && self == this
    {
      filters := filters + [ODesc(pattern)];
      self := this;
    }

    method Id(param: IdParam) returns (self: OldSelector)
      modifies this
      ensures filters == old(filters) + [OId(param)] && self == this
    {
      filters := filters + [OId(param)];
      self := this;
    }

    method Class(param: ClassParam) returns (self: OldSelector)
      modifies this
      ensures filters == old(filters) + [OClass(param)] && self == this
    {
      filters := filters + [OClass(param)];
      self := this;
    }

    method BoundsInside(param: Rect) returns (self: OldSelector)
      modifies this
      ensures filters == old(filters) + [OInside(param)] && self == this
    {
      filters := filters + [OInside(param)];
      self := this;
    }

    method Filter(func: Node -> bool) returns (self: OldSelector)
      modifies this
      ensures filters == old(filters) + [OCustom(func)] && self == this
    {
      filters := filters + [OCustom(func)];
      self := this;
    }

    /**
     * `find()`: the first view in pre-order that passes every filter, or
     * null: exactly the first element of `findAll()`, null when it is empty.
     */
    method Find() returns (r: Option<Node>)
      ensures r.None? <==> |OldMatching(filters, Preorder(target, []))| == 0
      ensures r.Some? ==> r.value == OldMatching(filters, Preorder(target, []))[0]
    {
      r := OldFindFrom(filters, target, []);
    }

    /** `findAll()`: every view of the subtree that passes every filter, in pre-order. */
    method FindAll() returns (r: seq<Node>)
      ensures r == OldMatching(filters, Preorder(target, []))
    {
      r := OldFindAllFrom(filters, target, []);
    }
  }

  // ---------------------------------------------------------------------
  // Properties
  // ---------------------------------------------------------------------

  /** With no filters, `findAll()` returns every view of the subtree in pre-order. */
  lemma {:induction false} OldNoFilters(vs: seq<Visit>)
    ensures OldMatching([], vs) == NodesOf(vs)
  {
    if |vs| > 0 {
      OldNoFilters(vs[..|vs| - 1]);
    }
  }

  /** With no filters, `find()` returns the root, and `findAll()` one view per view of the subtree. */
  lemma OldNoFiltersFindsRoot(root: Node)
    ensures First(OldMatching([], Preorder(root, []))) == Some(root)
    ensures |OldMatching([], Preorder(root, []))| == Size(root)
  {
    OldNoFilters(Preorder(root, []));
    PreorderShape(root, []);
  }

  /** A view `findAll()` returns passes every filter and lies in the subtree. */
  lemma {:induction false} OldMatchingMembers(fs: seq<OldFilter>, vs: seq<Visit>, n: Node)
    ensures n in OldMatching(fs, vs) <==> exists v :: v in vs && v.node == n && AllHold(fs, n)
  {
    if |vs| > 0 {
      var init := vs[..|vs| - 1];
      var last := vs[|vs| - 1];
      OldMatchingMembers(fs, init, n);
      assert vs == init + [last];
      if exists v :: v in vs && v.node == n && AllHold(fs, n) {
        var v :| v in vs && v.node == n && AllHold(fs, n);
        if v !in init {
          assert v == last;
        }
      }
    }
  }

  /** The weighted filter of the current revision that does the work of an old one. */
  function Translate(f: OldFilter): (g: Filter)
    ensures !g.PointIn?
  {
    match f
    case OText(p) => ByText(p)
    case ODesc(p) => ByDesc(p)
    case OId(param) => ById(param)
    case OClass(c) => ByClass(c)
    case OInside(r) => Inside(OneRect(r))
    case OCustom(func) => Custom((n: Node, d: Option<int>) => Indicator(func(n)))
  }

  function TranslateAll(fs: seq<OldFilter>): (gs: seq<Filter>)
    ensures |gs| == |fs| && forall i :: 0 <= i < |fs| ==> gs[i] == Translate(fs[i])
  {
    if |fs| == 0 then [] else [Translate(fs[0])] + TranslateAll(fs[1..])
  }

  /** A translated filter weighs 1 exactly when the old one accepts, and 0 otherwise, at any depth. */
  lemma TranslateWeight(f: OldFilter, n: Node, d: Option<int>)
    ensures Weight(Translate(f), n, d) == Indicator(Holds(f, n))
  {
  }

  lemma TranslateIsDepthBlind(f: OldFilter)
    ensures DepthBlind(Translate(f))
  {
    forall n: Node, d: int
      ensures Weight(Translate(f), n, Some(d)) == Weight(Translate(f), n, None)
    {
      TranslateWeight(f, n, Some(d));
      TranslateWeight(f, n, None);
    }
  }

  /** Translated filters pass a view exactly when the old ones do, and then with weight 1. */
  lemma {:induction false} TranslatedProduct(fs: seq<OldFilter>, n: Node, d: Option<int>)
    ensures AllPass(TranslateAll(fs), n, d) <==> AllHold(fs, n)
    ensures AllHold(fs, n) ==> Product(TranslateAll(fs), n, d) == 1
  {
    var gs := TranslateAll(fs);
    forall i | 0 <= i < |fs|
      ensures Weight(gs[i], n, d) == Indicator(Holds(fs[i], n))
    {
      TranslateWeight(fs[i], n, d);
    }
    if |fs| > 0 {
      TranslatedProduct(fs[1..], n, d);
      assert TranslateAll(fs)[1..] == TranslateAll(fs[1..]);
      if AllHold(fs, n) {
        assert Holds(fs[0], n);
        assert AllHold(fs[1..], n) by {
          forall i | 0 <= i < |fs| - 1
            ensures Holds(fs[1..][i], n)
          {
            assert fs[1..][i] == fs[i + 1];
          }
        }
      }
    }
  }

  /** The old `findAll()` and the current one agree on translated filters. */
  lemma {:induction false} RevisionsAgreeOnFindAll(fs: seq<OldFilter>, vs: seq<Visit>)
    ensures Matching(TranslateAll(fs), vs) == OldMatching(fs, vs)
  {
    if |vs| > 0 {
      RevisionsAgreeOnFindAll(fs, vs[..|vs| - 1]);
      TranslatedProduct(fs, vs[|vs| - 1].node, None);
    }
  }

  /** On translated filters every depth-first candidate weighs 1. */
  lemma {:induction false} TranslatedWeightsOne(fs: seq<OldFilter>, vs: seq<Visit>)
    ensures forall i :: 0 <= i < |DfsCandidates(TranslateAll(fs), vs)| ==> DfsCandidates(TranslateAll(fs), vs)[i].weight == 1
  {
    if |vs| > 0 {
      var v := vs[|vs| - 1];
      TranslatedWeightsOne(fs, vs[..|vs| - 1]);
      TranslatedProduct(fs, v.node, Some(|v.path| + 1));
    }
  }

  /**
   * The weighted `find('dfs')` of the current revision returns what the old
   * early-exit `find()` returns, for filters that only accept or reject:
   * all weights are 1, so the stable sort keeps the first view in pre-order.
   */
  lemma RevisionsAgreeOnFind(fs: seq<OldFilter>, root: Node)
    ensures Best(DfsCandidates(TranslateAll(fs), Preorder(root, []))) == First(OldMatching(fs, Preorder(root, [])))
  {
    var gs := TranslateAll(fs);
    var p := Preorder(root, []);
    var c := DfsCandidates(gs, p);
    forall i | 0 <= i < |gs|
      ensures DepthBlind(gs[i])
    {
      TranslateIsDepthBlind(fs[i]);
    }
    DepthBlindDfsIsFindAll(gs, p);
    RevisionsAgreeOnFindAll(fs, p);
    TranslatedWeightsOne(fs, p);
    if |c| > 0 {
      FirstMaxOfEqual(c);
      assert ScoredNodes(c)[0] == c[0].node;
    }
  }
}
