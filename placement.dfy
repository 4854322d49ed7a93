/**
 * Mine placement as both boards write it: the start position is spliced out of the
 * pool first, then each draw splices index i out and records whatever then sits at
 * index i (the element that slid into the gap, or undefined past the end).
 * The random source is an oracle sequence of drawn indices.
 */
module Placement {
  import opened Wrappers

  /** `[...Array(limit).keys()]`: the positions 0 .. limit-1. */
  function Range(limit: int): (r: seq<int>)
    ensures |r| == if limit < 0 then 0 else limit
    ensures forall k :: 0 <= k < |r| ==> r[k] == k
    decreases limit
  {
    if limit <= 0 then [] else Range(limit - 1) + [limit - 1]
  }

  /** `pool.splice(i, 1)`: removes the element at i; an index past the end removes nothing. */
  function Splice(pool: seq<int>, i: nat): (r: seq<int>)
    ensures i < |pool| ==> |r| == |pool| - 1
    ensures i >= |pool| ==> r == pool
    ensures forall x :: x in r ==> x in pool
  {
    if i < |pool| then pool[..i] + pool[i + 1..] else pool
  }

  /** `pool[i]`: undefined (None) past the end. */
  function Read(pool: seq<int>, i: nat): (r: Option<int>)
    ensures r.Some? <==> i < |pool|
    ensures r.Some? ==> r.value in pool
  {
    if i < |pool| then Some(pool[i]) else None
  }

  /** The pool after the start position has been taken out. */
  function InitialPool(limit: int, startPosition: nat): seq<int>
  {
    Splice(Range(limit), startPosition)
  }

  /** What the draw loop records for the given oracle, one entry per draw. */
  function Drawn(pool: seq<int>, draws: seq<nat>): (r: seq<Option<int>>)
    ensures |r| == |draws|
    ensures forall k :: 0 <= k < |r| && r[k].Some? ==> r[k].value in pool
  {
    if draws == [] then []
    else
      var rest := Splice(pool, draws[0]);
      [Read(rest, draws[0])] + Drawn(rest, draws[1..])
  }

  /** The pool never holds the start position, and holds only grid positions. */
  lemma {:induction false} InitialPoolExcludesStart(limit: int, startPosition: nat)
    ensures startPosition !in InitialPool(limit, startPosition)
    ensures forall x :: x in InitialPool(limit, startPosition) ==> 0 <= x < limit
  {
    var all := Range(limit);
    if startPosition < |all| {
      var pool := all[..startPosition] + all[startPosition + 1..];
      forall x | x in pool ensures x != startPosition && 0 <= x < limit {
        var k :| 0 <= k < |pool| && pool[k] == x;
        if k < startPosition { assert pool[k] == all[k]; }
        else { assert pool[k] == all[k + 1]; }
      }
    } else {
      forall x | x in all ensures x != startPosition && 0 <= x < limit {
        var k :| 0 <= k < |all| && all[k] == x;
      }
    }
  }

  /**
   * First-click safety of the placement: exactly one record per draw, the start
   * position is never recorded, and every recorded position lies on the grid.
   */
  lemma StartNeverDrawn(limit: int, startPosition: nat, draws: seq<nat>)
    ensures var r := Drawn(InitialPool(limit, startPosition), draws);
            |r| == |draws|
            && Some(startPosition) !in r
            && forall k :: 0 <= k < |r| && r[k].Some? ==> 0 <= r[k].value < limit
  {
    InitialPoolExcludesStart(limit, startPosition);
  }

  /** As written, the same position can be recorded twice (so fewer distinct mines result). */
  lemma DrawMayRepeat()
    ensures Drawn(InitialPool(4, 0), [1, 0]) == [Some(3), Some(3)]
  {
    assert InitialPool(4, 0) == [1, 2, 3];
    assert Splice([1, 2, 3], 1) == [1, 3];
    assert Splice([1, 3], 0) == [3];
  }

  /** As written, drawing the last index records undefined rather than a position. */
  lemma DrawMayBeUndefined()
    ensures Drawn(InitialPool(3, 0), [1]) == [None]
  {
    assert InitialPool(3, 0) == [1, 2];
    assert Splice([1, 2], 1) == [1];
  }
}
