/** Picking the items of a sequence at some of its positions, in order. */
module Positions {

  ghost predicate Rising(at: seq<nat>) {
    forall i, j :: 0 <= i < j < |at| ==> at[i] < at[j]
  }

  /** The positions below n at which something holds, in order. */
  ghost predicate PositionsOf(n: nat, holds: nat -> bool, at: seq<nat>) {
    Rising(at) && forall k: nat :: k in at <==> k < n && holds(k)
  }

  ghost predicate Picked<T>(items: seq<T>, at: seq<nat>, picked: seq<T>) {
    |picked| == |at| && forall i :: 0 <= i < |at| ==> at[i] < |items| && picked[i] == items[at[i]]
  }

  lemma PositionsGrow(n: nat, holds: nat -> bool, at: seq<nat>)
    requires PositionsOf(n, holds, at)
    ensures PositionsOf(n + 1, holds, if holds(n) then at + [n] else at)
  {
    assert forall i :: 0 <= i < |at| ==> at[i] in at;
    var longer := if holds(n) then at + [n] else at;
    assert forall k: nat :: k in longer <==> k in at || (holds(n) && k == n);
  }

  lemma PickedGrows<T>(items: seq<T>, at: seq<nat>, picked: seq<T>, n: nat)
    requires Picked(items, at, picked) && n < |items|
    ensures Picked(items, at + [n], picked + [items[n]])
  {
  }

  /** Two rising lists of the same numbers are the same. */
  lemma {:induction false} SameRising(a: seq<nat>, b: seq<nat>)
    requires Rising(a) && Rising(b) && forall k: nat :: k in a <==> k in b
    ensures a == b
  {
    assert a != [] ==> a[0] in b;
    assert b != [] ==> b[0] in a;
    if a != [] && b != [] {
      var m, n := |a| - 1, |b| - 1;
      assert a[m] in b && b[n] in a;
      assert a[m] == b[n];
      forall k: nat ensures k in a[..m] <==> k in b[..n] {
        assert k in a <==> k in a[..m] || k == a[m];
        assert k in b <==> k in b[..n] || k == b[n];
      }
      SameRising(a[..m], b[..n]);
    }
  }
}
