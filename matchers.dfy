/**
 * The attribute tests shared by both revisions of the selector: what each
 * filter checks about one view, as a boolean.  The current revision turns
 * them into weights 0/1; the old revision uses them as they are.
 */
module Matchers {
  import opened Wrappers
  import opened Nodes
  import opened IdFormat

  /**
   * A `string | RegExp` argument.  A regular expression is an abstract
   * predicate on strings (its `test` method); its syntax and the `lastIndex`
   * state of global expressions are not modelled.
   */
  datatype Pattern = Exact(s: string) | Regex(test: string -> bool)

  /** `typeof pattern === 'string' ? s === pattern : pattern.test(s)`. */
  predicate PatternMatches(p: Pattern, s: string)
  {
    match p
    case Exact(e) => s == e
    case Regex(test) => test(s)
  }

  /** The argument of `id(...)`: a number, or a string or regular expression for the entry name. */
  datatype IdParam = IdNumber(n: int) | IdPattern(p: Pattern)

  /**
   * The argument of `class(...)`: a class name or pattern, or a class handle
   * whose `isInstance` test on the view is an oracle; `None` stands for a
   * test that threw.
   */
  datatype ClassParam = ClassNamed(p: Pattern) | InstanceOf(isInstance: Node -> Option<bool>)

  /**
   * The `text(...)` test on what the `text` getter returned: a view without
   * text never matches, and a string pattern compares the whole text.  It
   * takes the getter's answer rather than the view because the two
   * revisions' getters differ.
   */
  predicate TextMatches(p: Pattern, text: Option<string>): (r: bool)
    ensures r ==> text.Some?
    ensures p.Exact? ==> (r <==> text == Some(p.s))
  {
    text.Some? && PatternMatches(p, text.value)
  }

  /** The `desc(...)` test: a view without a description never matches, and a string compares the whole description. */
  predicate DescMatches(p: Pattern, n: Node): (r: bool)
    ensures r ==> n.desc.Some?
    ensures p.Exact? ==> (r <==> n.desc == Some(p.s))
  {
    n.desc.Some? && PatternMatches(p, n.desc.value)
  }

  /** The `id(...)` test: a number against `parseInt(idHex)`, otherwise the entry name. */
  predicate IdMatches(param: IdParam, n: Node): (r: bool)
    ensures param.IdPattern? && r ==> IdName(n).Some?
    ensures param.IdPattern? && param.p.Exact? ==> (r <==> IdName(n) == Some(param.p.s))
  {
    match param
    case IdNumber(k) => ParseInt(IdHex(n.id)) == Some(k)
    case IdPattern(p) => IdName(n).Some? && PatternMatches(p, IdName(n).value)
  }

  /** The `class(...)` test: name or pattern against the class name, or the `isInstance` oracle. */
  predicate ClassMatches(c: ClassParam, n: Node): (r: bool)
    ensures c.ClassNamed? && c.p.Exact? ==> (r <==> n.className == c.p.s)
    ensures c.InstanceOf? && c.isInstance(n).None? ==> !r
  {
    match c
    case ClassNamed(p) => PatternMatches(p, n.className)
    case InstanceOf(isInstance) => isInstance(n) == Some(true)
  }

  /**
   * `boundsInside`: `b` lies within `r`, every edge inclusive; a box with
   * its edges in order lies within `r` exactly when its two corners do.
   */
  predicate Encloses(r: Rect, b: Rect): (res: bool)
    ensures b.left <= b.right && b.top <= b.bottom ==>
              (res <==> ContainsPoint(r, b.left, b.top) && ContainsPoint(r, b.right, b.bottom))
  {
    r.left <= b.left && r.top <= b.top && r.right >= b.right && r.bottom >= b.bottom
  }

  /** `boundsContains`: the point lies within `b`, every edge inclusive. */
  predicate ContainsPoint(b: Rect, x: int, y: int): (res: bool)
    ensures res <==> b.left <= x <= b.right && b.top <= y <= b.bottom
  {
    !(b.left > x || b.top > y || b.right < x || b.bottom < y)
  }

  /**
   * The numeric id test finds exactly the view with that id, for `NO_ID` and
   * every id that is not negative; a view with any other negative id is never
   * found, because its `idHex` ("0x-...") parses to `NaN`.
   */
  lemma IdNumberMatches(k: int, n: Node)
    ensures (n.id == NO_ID || n.id >= 0) ==> (IdMatches(IdNumber(k), n) <==> n.id == k)
    ensures n.id < NO_ID ==> !IdMatches(IdNumber(k), n)
  {
    if n.id == NO_ID || n.id >= 0 {
      IdHexRoundTrip(n.id);
    } else {
      IdHexNegativeIsNaN(n.id);
    }
  }

  /** The string forms of `id(...)` never match a view whose `id` getter is null, `NO_ID` included. */
  lemma IdPatternNeedsName(p: Pattern, n: Node)
    requires n.id == NO_ID || n.id <= 0 || !n.idHasPackage || n.resEntry.None?
    ensures !IdMatches(IdPattern(p), n)
  {
  }

  /**
   * All four edges of both box tests are inclusive: a rectangle encloses
   * itself and contains its corners, and moving any one edge of the view
   * outward by one unit breaks the enclosure.
   */
  lemma EdgesInclusive(r: Rect)
    ensures Encloses(r, r)
    ensures ContainsPoint(r, r.left, r.top) <==> r.left <= r.right && r.top <= r.bottom
    ensures ContainsPoint(r, r.right, r.bottom) <==> r.left <= r.right && r.top <= r.bottom
    ensures !Encloses(r, Rect(r.left - 1, r.top, r.right, r.bottom))
    ensures !Encloses(r, Rect(r.left, r.top - 1, r.right, r.bottom))
    ensures !Encloses(r, Rect(r.left, r.top, r.right + 1, r.bottom))
    ensures !Encloses(r, Rect(r.left, r.top, r.right, r.bottom + 1))
    ensures !ContainsPoint(r, r.left - 1, r.top) && !ContainsPoint(r, r.left, r.top - 1)
    ensures !ContainsPoint(r, r.right + 1, r.bottom) && !ContainsPoint(r, r.right, r.bottom + 1)
  {
  }
}
