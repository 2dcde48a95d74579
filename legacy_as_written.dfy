/**
 * The old `Selector` (agent/view.ts) with its `text` getter as written.
 * The getter's type test throws for every view (`LegacyView.TextAsWritten`),
 * and nothing between the filter and the caller of `find()` or `findAll()`
 * catches it: the search stops and the exception reaches the caller.  The
 * rest of the model uses the intended getter; this module states what the
 * code as written does instead, and where the two agree.
 */
module LegacyAsWritten {
  import opened Wrappers
  import opened Nodes
  import opened Matchers
  import opened LegacyView
  import opened LegacySelector

  /** One old filter called on a view as written: only the text filter reads the throwing getter. */
  function CallAsWritten(f: OldFilter, n: Node): (r: Outcome<bool>)
    ensures f.OText? ==> r == Threw
    ensures !f.OText? ==> r == Returned(Holds(f, n))
  {
    match f
    case OText(p) =>
      (match TextAsWritten(n)
       case Threw => Threw
       case Returned(t) => Returned(TextMatches(p, t)))
    case _ => Returned(Holds(f, n))
  }

  /**
   * `fs.every(func => func(view))` as written: the filters run in order,
   * the first one that rejects ends the test, and an exception raised by a
   * filter escapes it.
   */
  function EveryAsWritten(fs: seq<OldFilter>, n: Node): Outcome<bool>
  {
    if |fs| == 0 then Returned(true)
    else
      match CallAsWritten(fs[0], n)
      case Threw => Threw
      case Returned(b) => if b then EveryAsWritten(fs[1..], n) else Returned(false)
  }

  /** The list holds a text filter. */
  predicate HasText(fs: seq<OldFilter>)
  {
    exists i :: 0 <= i < |fs| && fs[i].OText?
  }

  /** The test of view `n` gets as far as a text filter: every filter before the first one accepts `n`. */
  ghost predicate ReachesText(fs: seq<OldFilter>, n: Node)
  {
    exists i :: 0 <= i < |fs| && fs[i].OText? && forall j :: 0 <= j < i ==> !fs[j].OText? && Holds(fs[j], n)
  }

  /**
   * As written, the filter test throws exactly when it gets as far as a
   * text filter, and otherwise decides what the intended test decides; with
   * a text filter in the list it never accepts a view.
   */
  lemma {:induction false} EveryAsWrittenSpec(fs: seq<OldFilter>, n: Node)
    ensures EveryAsWritten(fs, n) == if ReachesText(fs, n) then Threw else Returned(AllHold(fs, n))
    ensures HasText(fs) ==> EveryAsWritten(fs, n) != Returned(true)
  {
    if |fs| > 0 {
      var f := fs[0];
      var rest := fs[1..];
      assert forall i :: 1 <= i < |fs| ==> fs[i] == rest[i - 1];
      EveryAsWrittenSpec(rest, n);
      if f.OText? {
        assert ReachesText(fs, n) by {
          assert fs[0].OText?;
        }
      } else if Holds(f, n) {
        assert ReachesText(fs, n) <==> ReachesText(rest, n) by {
          if ReachesText(rest, n) {
            var i :| 0 <= i < |rest| && rest[i].OText? && forall j :: 0 <= j < i ==> !rest[j].OText? && Holds(rest[j], n);
            assert fs[i + 1].OText?;
            assert forall j :: 0 <= j < i + 1 ==> !fs[j].OText? && Holds(fs[j], n) by {
              forall j | 0 <= j < i + 1
                ensures !fs[j].OText? && Holds(fs[j], n)
              {
                if j > 0 {
                  assert fs[j] == rest[j - 1];
                }
              }
            }
          }
          if ReachesText(fs, n) {
            var i :| 0 <= i < |fs| && fs[i].OText? && forall j :: 0 <= j < i ==> !fs[j].OText? && Holds(fs[j], n);
            assert i > 0;
            assert rest[i - 1].OText?;
            assert forall j :: 0 <= j < i - 1 ==> !rest[j].OText? && Holds(rest[j], n) by {
              forall j | 0 <= j < i - 1
                ensures !rest[j].OText? && Holds(rest[j], n)
              {
                assert rest[j] == fs[j + 1];
              }
            }
          }
        }
        assert AllHold(fs, n) <==> AllHold(rest, n);
        assert HasText(fs) ==> HasText(rest) by {
          if HasText(fs) {
            var i :| 0 <= i < |fs| && fs[i].OText?;
            assert i > 0 && rest[i - 1].OText?;
          }
        }
      } else {
        assert !ReachesText(fs, n);
        assert !AllHold(fs, n);
      }
    }
  }

  /** Some view of the visit list has a test that gets as far as a text filter. */
  ghost predicate AnyReachesText(fs: seq<OldFilter>, vs: seq<Visit>)
  {
    exists k :: 0 <= k < |vs| && ReachesText(fs, vs[k].node)
  }

  /**
   * The old `findAll()` as written, over the views in the order it tests
   * them (pre-order): the matches so far, until a test throws, which ends
   * the whole search.
   */
  function OldFindAllAsWritten(fs: seq<OldFilter>, vs: seq<Visit>): Outcome<seq<Node>>
  {
    if |vs| == 0 then Returned([])
    else
      var n := vs[|vs| - 1].node;
      match OldFindAllAsWritten(fs, vs[..|vs| - 1])
      case Threw => Threw
      case Returned(found) =>
        match EveryAsWritten(fs, n)
        case Threw => Threw
        case Returned(b) => Returned(found + if b then [n] else [])
  }

  /**
   * The old `find()` as written, over the views in the order it tests
   * them: the first view that passes ends the search, and so does a test
   * that throws.
   */
  function OldFindAsWritten(fs: seq<OldFilter>, vs: seq<Visit>): Outcome<Option<Node>>
  {
    if |vs| == 0 then Returned(None)
    else
      var n := vs[|vs| - 1].node;
      match OldFindAsWritten(fs, vs[..|vs| - 1])
      case Threw => Threw
      case Returned(Some(m)) => Returned(Some(m))
      case Returned(None) =>
        match EveryAsWritten(fs, n)
        case Threw => Threw
        case Returned(b) => Returned(if b then Some(n) else None)
  }

  lemma AnyReachesTextSnoc(fs: seq<OldFilter>, vs: seq<Visit>)
    requires |vs| > 0
    ensures AnyReachesText(fs, vs) <==> AnyReachesText(fs, vs[..|vs| - 1]) || ReachesText(fs, vs[|vs| - 1].node)
  {
    var init := vs[..|vs| - 1];
    assert forall k :: 0 <= k < |init| ==> init[k] == vs[k];
    if AnyReachesText(fs, vs) {
      var k :| 0 <= k < |vs| && ReachesText(fs, vs[k].node);
      if k < |init| {
        assert ReachesText(fs, init[k].node);
      }
    }
  }

  /**
   * As written, `findAll()` throws exactly when the test of some view gets
   * as far as a text filter, and otherwise returns what the intended
   * `findAll()` returns.
   */
  lemma {:induction false} FindAllAsWrittenSpec(fs: seq<OldFilter>, vs: seq<Visit>)
    ensures OldFindAllAsWritten(fs, vs) == if AnyReachesText(fs, vs) then Threw else Returned(OldMatching(fs, vs))
  {
    if |vs| > 0 {
      var init := vs[..|vs| - 1];
      FindAllAsWrittenSpec(fs, init);
      AnyReachesTextSnoc(fs, vs);
      EveryAsWrittenSpec(fs, vs[|vs| - 1].node);
    }
  }

  /**
   * As written, without a text filter `find()` returns what the intended
   * `find()` returns; with one it never finds a view, and it throws exactly
   * when the test of some view gets as far as the text filter.
   */
  lemma {:induction false} FindAsWrittenSpec(fs: seq<OldFilter>, vs: seq<Visit>)
    ensures !HasText(fs) ==> OldFindAsWritten(fs, vs) == Returned(First(OldMatching(fs, vs)))
    ensures HasText(fs) ==> OldFindAsWritten(fs, vs) == if AnyReachesText(fs, vs) then Threw else Returned(None)
  {
    if |vs| > 0 {
      var init := vs[..|vs| - 1];
      var n := vs[|vs| - 1].node;
      FindAsWrittenSpec(fs, init);
      AnyReachesTextSnoc(fs, vs);
      EveryAsWrittenSpec(fs, n);
      if !HasText(fs) {
        assert !ReachesText(fs, n);
        assert OldMatching(fs, vs) == OldMatching(fs, init) + (if AllHold(fs, n) then [n] else []);
      }
    }
  }

  /**
   * `text('OK')` on a `TextView` showing "OK": as written, both searches
   * throw; with the intended getter, `find()` returns the view.
   */
  lemma TextFilterAbortsSearch()
    ensures OldFindAsWritten([OText(Exact("OK"))], Preorder(OkLabel, [])) == Threw
    ensures OldFindAllAsWritten([OText(Exact("OK"))], Preorder(OkLabel, [])) == Threw
    ensures First(OldMatching([OText(Exact("OK"))], Preorder(OkLabel, []))) == Some(OkLabel)
  {
    var fs := [OText(Exact("OK"))];
    var vs := Preorder(OkLabel, []);
    assert vs == [Visit([], OkLabel)];
    assert vs[..0] == [];
    assert EveryAsWritten(fs, OkLabel) == Threw;
    assert AllHold(fs, OkLabel);
  }
}
