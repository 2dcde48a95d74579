/**
 * The parts of the old `ViewWrapper` (agent/view.ts) that differ from the
 * current one: its `text` getter, and the `mHighlightViews` registry that
 * `highlight` updates and the `isShowingLayoutBounds` hook consults.  The
 * getter as written calls `isInstance` with no argument, which throws
 * (`TextAsWritten`); `TextOf` is the getter with the view passed, as the
 * current revision has it, and is the one the old selector's model reads.
 */
module LegacyView {
  import opened Wrappers
  import opened Nodes
  import opened Matchers

  // ---------------------------------------------------------------------
  // The text getter
  // ---------------------------------------------------------------------

  /**
   * `TextView.class.isInstance(...)` called through Frida's Java bridge with
   * the arguments `args`: `Class.isInstance` has one overload, taking one
   * object, and the bridge throws when a call's argument count matches no
   * overload.  Called with one view, it tells whether the view is a
   * `TextView` (in this model, a view with a text).
   */
  function TextViewIsInstance(args: seq<Node>): (r: Outcome<bool>)
    ensures r.Threw? <==> |args| != 1
    ensures r.Returned? ==> (r.result <==> args[0].text.Some?)
  {
    if |args| == 1 then Returned(args[0].text.Some?) else Threw
  }

  /**
   * The old `text` getter as written: its type test calls
   * `TextView.class.isInstance()` with no argument at all.
   */
  function TextAsWritten(n: Node): (r: Outcome<Option<string>>)
    ensures r.Threw?
  {
    match TextViewIsInstance([])
    case Threw => Threw
    case Returned(isText) => Returned(if isText then n.text else None)
  }

  /**
   * The getter as evidently intended, and as the current revision has it:
   * the type test on the view itself (`isInstance(this.instance)`).
   */
  function TextOf(n: Node): (r: Option<string>)
    ensures r == n.text
  {
    match TextViewIsInstance([n])
    case Returned(true) => n.text
    case _ => None
  }

  /** A `TextView` showing "OK". */
  const OkLabel: Node := Node(Some("OK"), None, NO_ID, false, None, "android.widget.TextView", Rect(0, 0, 40, 20), NotGroup)

  /**
   * With the intended getter, `text(pattern)` accepts exactly the views that
   * have a text the pattern matches: never a view that is not a `TextView`.
   */
  lemma TextFilterIntended(p: Pattern, n: Node)
    ensures TextMatches(p, TextOf(n)) <==> n.text.Some? && PatternMatches(p, n.text.value)
    ensures n.text.None? ==> !TextMatches(p, TextOf(n))
  {
  }

  // ---------------------------------------------------------------------
  // Highlighting
  // ---------------------------------------------------------------------

  /** The marker `highlight(true)` stores for a view. */
  const MARK: string := "#"

  /** The registry after `highlight(state)` on view `v`: `put(v, '#')` or `remove(v)`. */
  function Highlighted(m: map<Node, string>, v: Node, state: bool): (r: map<Node, string>)
    ensures state ==> v in r && r[v] == MARK
    ensures !state ==> v !in r
    ensures forall w :: w != v ==> (w in r <==> w in m) && (w in r ==> r[w] == m[w])
  {
    if state then m[v := MARK] else m - {v}
  }

  /** `WeakHashMap.get`: the stored value, or null. */
  function Lookup(m: map<Node, string>, v: Node): (r: Option<string>)
    ensures r.Some? <==> v in m
    ensures r.Some? ==> r.value == m[v]
  {
    if v in m then Some(m[v]) else None
  }

  /** The replaced `isShowingLayoutBounds`: true for a registered view, otherwise the original answer. */
  function ShowsBounds(m: map<Node, string>, v: Node, original: bool): (r: bool)
    ensures v in m ==> r
    ensures v !in m ==> r == original
  {
    v in m || original
  }

  /**
   * `highlight(true)` makes the view report its layout bounds, `highlight(false)`
   * hands the answer back to the original method, and no other view's answer changes.
   */
  lemma HighlightEffect(m: map<Node, string>, v: Node, state: bool, w: Node, original: bool)
    ensures w == v ==> ShowsBounds(Highlighted(m, v, state), w, original) == (state || original)
    ensures w != v ==> ShowsBounds(Highlighted(m, v, state), w, original) == ShowsBounds(m, w, original)
  {
  }

  /** Highlighting and then un-highlighting a view leaves every answer as it was before, for a view not highlighted before. */
  lemma HighlightUndo(m: map<Node, string>, v: Node, w: Node, original: bool)
    requires v !in m
    ensures Highlighted(Highlighted(m, v, true), v, false) == m
    ensures ShowsBounds(Highlighted(Highlighted(m, v, true), v, false), w, original) == ShowsBounds(m, w, original)
  {
    assert Highlighted(Highlighted(m, v, true), v, false) == m;
  }

  /** The module-level `mHighlightViews` map and the behaviour that reads it. */
  class HighlightRegistry {
    var views: map<Node, string>

    constructor ()
      ensures views == map[]
    {
      views := map[];
    }

    /** `highlight(state)` on `v`; the redraw it schedules on the main thread is not modelled. */
    method Highlight(v: Node, state: bool)
      modifies this
      ensures views == Highlighted(old(views), v, state)
    {
      if state {
        views := views[v := MARK];
      } else {
        views := views - {v};
      }
    }

    /** The hooked `View.isShowingLayoutBounds`, given what the original implementation answers. */
    function IsShowingLayoutBounds(v: Node, original: bool): (r: bool)
      reads this
      ensures r == ShowsBounds(views, v, original)
      ensures !original ==> (r <==> v in views)
    {
      Lookup(views, v) != None || original
    }
  }
}
