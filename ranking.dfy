/**
 * How `find` ranks its candidates: `result.sort((a, b) => b[0] - a[0])`
 * and then the first entry.  `Array.prototype.sort` is stable, so it is
 * modelled by a stable insertion sort on descending weight.
 */
module Ranking {
  import opened Nodes

  /** One entry `[weight, view]` of a traversal's result list. */
  datatype Scored = Scored(weight: int, node: Node)

  /**
   * The position of the first entry of greatest weight: no entry weighs
   * more, and every entry before it weighs strictly less.
   */
  function FirstMaxIndex(s: seq<Scored>): (k: nat)
    requires |s| > 0
    ensures k < |s|
    ensures forall j :: 0 <= j < |s| ==> s[j].weight <= s[k].weight
    ensures forall j :: 0 <= j < k ==> s[j].weight < s[k].weight
  {
    if |s| == 1 then 0
    else
      var m := FirstMaxIndex(s[1..]) + 1;
      if s[0].weight >= s[m].weight then 0 else m
  }

  /** Heavier entries first. */
  ghost predicate Descending(s: seq<Scored>)
  {
    forall i, j :: 0 <= i < j < |s| ==> s[i].weight >= s[j].weight
  }

  /** Puts `x` before the first entry that does not outweigh it. */
  function Insert(x: Scored, s: seq<Scored>): (r: seq<Scored>)
    ensures multiset(r) == multiset(s) + multiset{x}
    ensures |r| == |s| + 1
    ensures r[0] == x || (|s| > 0 && r[0] == s[0])
    ensures Descending(s) ==> Descending(r)
  {
    if |s| == 0 || s[0].weight <= x.weight then [x] + s
    else
      var rest := Insert(x, s[1..]);
      assert s == [s[0]] + s[1..];
      InsertBehindHead(x, s, rest);
      [s[0]] + rest
  }

  /** The recursive case of `Insert`: `x` goes behind a head that outweighs it. */
  lemma InsertBehindHead(x: Scored, s: seq<Scored>, rest: seq<Scored>)
    requires |s| > 0 && s[0].weight > x.weight && |rest| > 0
    requires rest[0] == x || (|s| > 1 && rest[0] == s[1])
    requires Descending(s[1..]) ==> Descending(rest)
    ensures Descending(s) ==> Descending([s[0]] + rest)
  {
    if Descending(s) {
      assert Descending(s[1..]);
      var r := [s[0]] + rest;
      forall i, j | 0 <= i < j < |r|
        ensures r[i].weight >= r[j].weight
      {
        assert r[j] == rest[j - 1];
        if i == 0 {
          assert rest[0].weight <= s[0].weight;
        } else {
          assert r[i] == rest[i - 1];
        }
      }
    }
  }

  /** The stable sort by descending weight: `result.sort((a, b) => b[0] - a[0])`. */
  function SortDesc(s: seq<Scored>): (r: seq<Scored>)
    ensures multiset(r) == multiset(s)
    ensures |r| == |s|
    ensures Descending(r)
  {
    if |s| == 0 then []
    else
      assert s == [s[0]] + s[1..];
      Insert(s[0], SortDesc(s[1..]))
  }

  /**
   * After the sort, the first entry is the first entry of greatest weight
   * in visiting order: an equal weight never overtakes an earlier entry.
   */
  lemma {:induction false} SortDescHead(s: seq<Scored>)
    requires |s| > 0
    ensures SortDesc(s)[0] == s[FirstMaxIndex(s)]
  {
    if |s| > 1 {
      SortDescHead(s[1..]);
    }
  }
}
