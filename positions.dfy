/**
  Where the elements of a filtered list came from: the positions, in the original list, of
  the elements a `filter` keeps. A filter keeps order when these positions ascend.
*/
module Positions {

  /** `kept[k]` is the element at position `p[k]` of `s`. */
  predicate PositionsOf<T(==)>(s: seq<T>, kept: seq<T>, p: seq<nat>) {
    |p| == |kept| && forall k :: 0 <= k < |p| ==> p[k] < |s| && s[p[k]] == kept[k]
  }

  predicate Ascending(p: seq<nat>) {
    forall k, l :: 0 <= k < l < |p| ==> p[k] < p[l]
  }

  /** The positions one further on. */
  function Shift(q: seq<nat>): (r: seq<nat>)
    ensures |r| == |q| && forall k :: 0 <= k < |q| ==> r[k] == q[k] + 1
  {
    seq(|q|, k requires 0 <= k < |q| => q[k] + 1)
  }

  /** Positions in the tail of `s` are, one further on, positions in `s`. */
  lemma ShiftPositions<T>(s: seq<T>, kept: seq<T>, q: seq<nat>)
    requires s != [] && PositionsOf(s[1..], kept, q)
    ensures PositionsOf(s, kept, Shift(q))
  {
    var r := Shift(q);
    forall k | 0 <= k < |r| ensures r[k] < |s| && s[r[k]] == kept[k] {
      assert s[1..][q[k]] == kept[k];
    }
  }

  /** Keeping the head of `s` as well puts position 0 in front. */
  lemma ConsPositions<T>(s: seq<T>, kept: seq<T>, p: seq<nat>)
    requires s != [] && PositionsOf(s, kept, p)
    ensures PositionsOf(s, [s[0]] + kept, [0] + p)
  {
    var p', kept' := [0] + p, [s[0]] + kept;
    forall k | 0 <= k < |p'| ensures p'[k] < |s| && s[p'[k]] == kept'[k] {
      if k > 0 { assert p'[k] == p[k - 1] && kept'[k] == kept[k - 1]; }
    }
  }

  /** Shifted positions stay ascending, also behind position 0. */
  lemma ShiftAscending(q: seq<nat>)
    requires Ascending(q)
    ensures Ascending(Shift(q)) && Ascending([0] + Shift(q))
  {
    var r0 := [0] + Shift(q);
    forall k, l | 0 <= k < l < |r0| ensures r0[k] < r0[l] {
      assert r0[l] == Shift(q)[l - 1];
      if k > 0 { assert r0[k] == Shift(q)[k - 1]; }
    }
  }

  /** Where `i` of the tail sits among the shifted positions. */
  lemma ShiftCovers(q: seq<nat>, i: nat)
    requires i in q
    ensures i + 1 in Shift(q) && i + 1 in [0] + Shift(q)
  {
    var k :| 0 <= k < |q| && q[k] == i;
    assert Shift(q)[k] == i + 1;
    assert ([0] + Shift(q))[k + 1] == i + 1;
  }
}
