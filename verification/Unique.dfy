/** Dropping duplicates, keeping first occurrences in order: `dict.fromkeys`. */
module Unique {
  import opened Positions

  function Add<T(==)>(kept: seq<T>, x: T): seq<T> {
    if x in kept then kept else kept + [x]
  }

  /** `dict.fromkeys(s)`, continued from what is kept already. */
  function FirstOccurrences<T(==)>(kept: seq<T>, s: seq<T>): seq<T> {
    if s == [] then kept else Add(FirstOccurrences(kept, s[..|s| - 1]), s[|s| - 1])
  }

  lemma {:induction false} UniqueConcat<T>(kept: seq<T>, a: seq<T>, b: seq<T>)
    ensures FirstOccurrences(kept, a + b) == FirstOccurrences(FirstOccurrences(kept, a), b)
  {
    if b == [] {
      assert a + b == a;
    } else {
      var n := |b| - 1;
      assert (a + b)[..|a| + n] == a + b[..n];
      UniqueConcat(kept, a, b[..n]);
    }
  }

  lemma {:induction false} UniqueHolds<T>(kept: seq<T>, s: seq<T>)
    ensures forall x :: x in FirstOccurrences(kept, s) <==> x in kept || x in s
  {
    if s != [] {
      UniqueHolds(kept, s[..|s| - 1]);
      assert s == s[..|s| - 1] + [s[|s| - 1]];
    }
  }

  lemma {:induction false} UniqueOfUnique<T>(kept: seq<T>, s: seq<T>)
    ensures FirstOccurrences(kept, FirstOccurrences([], s)) == FirstOccurrences(kept, s)
  {
    if s != [] {
      var front, x := s[..|s| - 1], s[|s| - 1];
      var u := FirstOccurrences([], front);
      UniqueOfUnique(kept, front);
      UniqueHolds(kept, front);
      UniqueHolds([], front);
      if x !in u {
        assert (u + [x])[..|u|] == u;
      }
    }
  }

  lemma UniqueAssociates<T>(a: seq<T>, b: seq<T>, c: seq<T>)
    ensures FirstOccurrences([], FirstOccurrences([], a + b) + c)
         == FirstOccurrences([], a + FirstOccurrences([], b + c))
  {
    UniqueConcat([], FirstOccurrences([], a + b), c);
    UniqueOfUnique([], a + b);
    UniqueConcat([], a, b);
    UniqueConcat([], a, FirstOccurrences([], b + c));
    UniqueOfUnique(FirstOccurrences([], a), b + c);
    UniqueConcat(FirstOccurrences([], a), b, c);
  }

  /** The item at a position does not occur before it. */
  ghost predicate IsFirst<T(!new)>(s: seq<T>, k: nat) {
    k < |s| && s[k] !in s[..k]
  }

  /** What is left are the items at the positions where something occurs for the first time, in order. */
  lemma {:induction false} FirstOccurrencesAt<T(!new)>(s: seq<T>) returns (at: seq<nat>)
    ensures Rising(at) && Picked(s, at, FirstOccurrences([], s))
    ensures forall k: nat :: k in at <==> IsFirst(s, k)
  {
    if s == [] {
      at := [];
    } else {
      var n: nat := |s| - 1;
      assert s == s[..n] + [s[n]];
      at := FirstOccurrencesAt(s[..n]);
      UniqueHolds([], s[..n]);
      forall k: nat | k < n ensures IsFirst(s, k) <==> IsFirst(s[..n], k) { assert s[..n][..k] == s[..k]; }
      assert forall i :: 0 <= i < |at| ==> at[i] in at;
      if s[n] !in s[..n] { at := at + [n]; }
    }
  }
}
